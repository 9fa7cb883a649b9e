/**
 * The post workflow of the Post model: validation, choice of the slug,
 * mass assignment, and the tag association, over an in-memory store.
 */
module Posts {
  import opened Wrappers
  import opened Text
  import opened Framework
  import opened Requests
  import opened Validation
  import opened JsonEnvelope
  import opened Slugs
  import opened TagResolver
  import Response
  import BaseController

  /**
   * A row of the posts table; its id is its position (rows are never removed,
   * only flagged by SoftDeletes). `owner` is the `user_id` column as assigned.
   */
  datatype Post = Post(
    title: string, slug: string, content: string, status: string,
    owner: Value, deleted: bool, tags: set<nat>)

  /** The tag ids `attach`/`sync` leave attached: exactly those listed, each once. */
  function TagIds(ids: seq<nat>): (r: set<nat>)
    ensures forall t :: t in r <==> t in ids
    ensures |r| <= |ids|
    decreases |ids|
  {
    if ids == [] then {} else TagIds(ids[..|ids| - 1]) + {ids[|ids| - 1]}
  }

  /** What the post endpoints send under `data`: the row and its id. */
  datatype PostView = PostView(id: nat, post: Post)

  /** The rules array shared by `store` and `updatePost`, one line per field. */
  const TitleRules := FieldRules("title", false, [Required, IsString])
  const SlugRules := FieldRules("slug", true, [IsString])
  const ContentRules := FieldRules("content", false, [Required, IsString])
  const TagsRules := FieldRules("tags", false, [Required, IsArray])
  const StatusRules := FieldRules("status", false, [Required, In(["publish", "draft"])])
  const PostRules: Schema := [TitleRules, SlugRules, ContentRules, TagsRules, StatusRules]

  /** The requests that pass PostRules, stated directly. */
  predicate PostInputValid(input: Input) {
    && "title" in input && input["title"].Str? && !IsBlank(input["title"].s)
    && ("slug" in input ==> input["slug"].Str?)
    && "content" in input && input["content"].Str? && !IsBlank(input["content"].s)
    && "tags" in input && input["tags"].Arr? && input["tags"].items != []
    && "status" in input && input["status"].Str? && input["status"].s in ["publish", "draft"]
  }

  lemma PostRulesExact(lib: Helpers, input: Input)
    ensures Validate(lib, input, PostRules) == [] <==> PostInputValid(input)
  {
    var s := PostRules;
    ValidateCons(lib, input, s);
    ValidateCons(lib, input, s[1..]);
    ValidateCons(lib, input, s[2..]);
    ValidateCons(lib, input, s[3..]);
    ValidateCons(lib, input, s[4..]);
    assert s[1..][1..] == s[2..] && s[2..][1..] == s[3..] && s[3..][1..] == s[4..] && s[4..][1..] == [];
    RequiredString(lib, input, "title");
    OptionalString(lib, input, "slug");
    RequiredString(lib, input, "content");
    RequiredArray(lib, input, "tags");
    RequiredIn(lib, input, "status", ["publish", "draft"]);
  }

  /** The `$fillable` columns. */
  const Fillable: set<string> := {"title", "slug", "content", "status", "user_id"}

  function Fillables(data: Input): Input {
    map k | k in data && k in Fillable :: data[k]
  }

  /**
   * Eloquent's fill: each fillable key present in `data` sets its column;
   * every other key of `data` is ignored and `deleted`/`tags` never change.
   * The four text columns take only string values (validation lets nothing
   * else reach them); `user_id` takes whatever value is given.
   */
  function FillPost(p: Post, data: Input): (r: Post)
    ensures r.deleted == p.deleted && r.tags == p.tags
    ensures "title" in data && data["title"].Str? ==> r.title == data["title"].s
    ensures "slug" in data && data["slug"].Str? ==> r.slug == data["slug"].s
    ensures "content" in data && data["content"].Str? ==> r.content == data["content"].s
    ensures "status" in data && data["status"].Str? ==> r.status == data["status"].s
    ensures "user_id" in data ==> r.owner == data["user_id"]
    ensures "title" !in data ==> r.title == p.title
    ensures "slug" !in data ==> r.slug == p.slug
    ensures "content" !in data ==> r.content == p.content
    ensures "status" !in data ==> r.status == p.status
    ensures "user_id" !in data ==> r.owner == p.owner
  {
    p.(title := if "title" in data && data["title"].Str? then data["title"].s else p.title,
       slug := if "slug" in data && data["slug"].Str? then data["slug"].s else p.slug,
       content := if "content" in data && data["content"].Str? then data["content"].s else p.content,
       status := if "status" in data && data["status"].Str? then data["status"].s else p.status,
       owner := if "user_id" in data then data["user_id"] else p.owner)
  }

  /** Keys outside `$fillable` have no effect on what is written. */
  lemma FillReadsOnlyFillable(p: Post, data: Input)
    ensures FillPost(p, data) == FillPost(p, Fillables(data))
  {
  }

  /** What `$post->update($input)` writes once validation passed and the slug is settled. */
  lemma UpdatedRow(p: Post, input: Input, slug: string)
    requires PostInputValid(input)
    ensures FillPost(p, input["slug" := Str(slug)]) ==
            Post(TextAt(input, "title"), slug, TextAt(input, "content"), TextAt(input, "status"),
                 if "user_id" in input then input["user_id"] else p.owner, p.deleted, p.tags)
  {
  }

  /** The row `Post::create` starts from before filling. */
  const EmptyPost := Post("", "", "", "", Null, false, {})

  predicate LiveWith(p: Post, slug: string) {
    !p.deleted && p.slug == slug
  }

  /** The slugs the SoftDeletes-scoped queries can see. */
  function LiveSlugs(posts: seq<Post>): (r: set<string>)
    ensures forall i :: 0 <= i < |posts| && !posts[i].deleted ==> posts[i].slug in r
    ensures forall s :: s in r ==> exists i :: 0 <= i < |posts| && LiveWith(posts[i], s)
  {
    set i | 0 <= i < |posts| && !posts[i].deleted :: posts[i].slug
  }

  /** `Post::where('slug', $slug)->first()` under the SoftDeletes scope. */
  function FirstLive(posts: seq<Post>, slug: string): (r: Option<nat>)
    ensures r.Some? ==> r.value < |posts| && LiveWith(posts[r.value], slug)
    ensures r.Some? ==> forall j :: 0 <= j < r.value ==> !LiveWith(posts[j], slug)
    ensures r.None? <==> slug !in LiveSlugs(posts)
    decreases |posts|
  {
    if posts == [] then None
    else
      var front := posts[..|posts| - 1];
      assert forall j :: 0 <= j < |front| ==> front[j] == posts[j];
      var r := FirstLive(front, slug);
      if r.Some? then r
      else if LiveWith(posts[|posts| - 1], slug) then Some(|posts| - 1)
      else None
  }

  /** No two live posts share a slug. */
  ghost predicate UniqueLiveSlugs(posts: seq<Post>) {
    forall i, j :: 0 <= i < j < |posts| && !posts[i].deleted && !posts[j].deleted ==> posts[i].slug != posts[j].slug
  }

  /**
   * The slug `store` settles on. Without a filled slug it is whatever
   * `createSlug` yields for the title; with one, the normalised slug unless a
   * live post already has it.
   */
  function StoreSlug(lib: Helpers, live: set<string>, input: Input): (r: Result<string, SlugFailure>)
    ensures r.Success? ==> r.value !in live
    ensures r == Failure(SlugTaken) <==> Filled(input, "slug") && lib.slug(TextAt(input, "slug")) in live
    ensures r == Failure(BaseSlugNotFound) <==> !Filled(input, "slug") && lib.slug(TextAt(input, "title")) !in live
    ensures Filled(input, "slug") && r.Success? ==> r.value == lib.slug(TextAt(input, "slug"))
    ensures !Filled(input, "slug") ==> r == GeneratedSlug(lib.slug(TextAt(input, "title")), live)
  {
    if !Filled(input, "slug") then GeneratedSlug(lib.slug(TextAt(input, "title")), live)
    else
      var slug := lib.slug(TextAt(input, "slug"));
      if slug in live then Failure(SlugTaken) else Success(slug)
  }

  /**
   * The path on which `updatePost` writes a blank slug: the key is present but
   * not filled, and the title is unchanged, so nothing replaces it.
   */
  predicate BlankSlugKept(input: Input, post: Post) {
    "slug" in input && !Filled(input, "slug") && TextAt(input, "title") == post.title
  }

  /**
   * The slug `updatePost` writes for `post`. The raw input slug is compared
   * with the stored one; a different one is normalised and checked against
   * every live post, this one included.
   */
  function UpdateSlug(lib: Helpers, live: set<string>, post: Post, input: Input): (r: Result<string, SlugFailure>)
    ensures r == Failure(SlugTaken) <==>
            Filled(input, "slug") && TextAt(input, "slug") != post.slug && lib.slug(TextAt(input, "slug")) in live
    ensures r == Failure(BaseSlugNotFound) <==>
            !Filled(input, "slug") && TextAt(input, "title") != post.title && lib.slug(TextAt(input, "title")) !in live
    ensures !Filled(input, "slug") && TextAt(input, "title") != post.title ==>
            r == GeneratedSlug(lib.slug(TextAt(input, "title")), live)
    ensures "slug" !in input && TextAt(input, "title") == post.title ==> r == Success(post.slug)
    ensures Filled(input, "slug") && TextAt(input, "slug") == post.slug ==> r == Success(post.slug)
    ensures Filled(input, "slug") && TextAt(input, "slug") != post.slug && r.Success? ==>
            r.value == lib.slug(TextAt(input, "slug"))
    ensures BlankSlugKept(input, post) ==> r == Success(TextAt(input, "slug"))
    ensures r.Success? && !BlankSlugKept(input, post) ==> r.value == post.slug || r.value !in live
  {
    var raw := TextAt(input, "slug");
    if !Filled(input, "slug") && TextAt(input, "title") != post.title then
      GeneratedSlug(lib.slug(TextAt(input, "title")), live)
    else if Filled(input, "slug") then
      if raw == post.slug then Success(post.slug)
      else if lib.slug(raw) in live then Failure(SlugTaken)
      else Success(lib.slug(raw))
    else if "slug" in input then Success(raw)
    else Success(post.slug)
  }

  /**
   * A new explicit slug that normalises to the post's own current slug is
   * rejected: the uniqueness query does not exclude the post being updated.
   */
  lemma OwnSlugCountsAsTaken(lib: Helpers, posts: seq<Post>, id: nat, input: Input)
    requires id < |posts| && !posts[id].deleted
    requires Filled(input, "slug") && TextAt(input, "slug") != posts[id].slug
    requires lib.slug(TextAt(input, "slug")) == posts[id].slug
    ensures UpdateSlug(lib, LiveSlugs(posts), posts[id], input) == Failure(SlugTaken)
  {
    assert posts[id].slug in LiveSlugs(posts);
  }

  /**
   * A valid update request carrying the unchanged title and an empty slug
   * passes validation and is given the empty string as the slug to write,
   * whatever the live slugs are.
   */
  lemma EmptySlugWritten(lib: Helpers, live: set<string>, post: Post)
    requires !IsBlank(post.title)
    ensures var input := map["title" := Str(post.title), "slug" := Str(""), "content" := Str("c"),
                             "tags" := Arr(["t"]), "status" := Str("draft")];
            && PostInputValid(input)
            && UpdateSlug(lib, live, post, input) == Success("")
  {
    var input := map["title" := Str(post.title), "slug" := Str(""), "content" := Str("c"),
                     "tags" := Arr(["t"]), "status" := Str("draft")];
    assert !IsTrimmable("c"[0]);
    assert !Filled(input, "slug");
    assert BlankSlugKept(input, post);
  }

  /**
   * The blank-slug path breaks uniqueness: with live posts slugged "" and "x",
   * a valid update of the second that keeps its title and sends an empty
   * slug writes "", which the first post already has.
   */
  lemma BlankSlugBreaksUnique(lib: Helpers, tagIds: set<nat>)
    ensures var posts := [Post("a", "", "c", "draft", Null, false, {}), Post("b", "x", "c", "draft", Null, false, {})];
            var input := map["title" := Str("b"), "slug" := Str(""), "content" := Str("c"),
                             "tags" := Arr(["t"]), "status" := Str("draft")];
            && UniqueLiveSlugs(posts)
            && PostInputValid(input)
            && UpdateSlug(lib, LiveSlugs(posts), posts[1], input) == Success("")
            && !UniqueLiveSlugs(posts[1 := Post("b", "", "c", "draft", Null, false, tagIds)])
  {
    var posts := [Post("a", "", "c", "draft", Null, false, {}), Post("b", "x", "c", "draft", Null, false, {})];
    assert !IsTrimmable("b"[0]);
    EmptySlugWritten(lib, LiveSlugs(posts), posts[1]);
    var q := posts[1 := Post("b", "", "c", "draft", Null, false, tagIds)];
    assert q[0].slug == q[1].slug;
  }

  /** With no post at all, `store`'s slug decision without a filled slug is the firstOrFail failure. */
  lemma FirstPostNeedsExplicitSlug(lib: Helpers, input: Input)
    requires !Filled(input, "slug")
    ensures StoreSlug(lib, LiveSlugs([]), input) == Failure(BaseSlugNotFound)
  {
  }

  /** Adding a row whose slug no live post has keeps the live slugs unique. */
  lemma AppendKeepsUnique(posts: seq<Post>, p: Post)
    requires p.slug !in LiveSlugs(posts)
    ensures UniqueLiveSlugs(posts) ==> UniqueLiveSlugs(posts + [p])
    ensures LiveSlugs(posts + [p]) == LiveSlugs(posts) + (if p.deleted then {} else {p.slug})
  {
    var q := posts + [p];
    assert forall i :: 0 <= i < |posts| ==> q[i] == posts[i];
    forall s | s in LiveSlugs(q)
      ensures s in LiveSlugs(posts) + (if p.deleted then {} else {p.slug})
    {
      var i :| 0 <= i < |q| && !q[i].deleted && q[i].slug == s;
      if i < |posts| {
        assert s in LiveSlugs(posts);
      }
    }
    forall s | s in LiveSlugs(posts)
      ensures s in LiveSlugs(q)
    {
      var i :| 0 <= i < |posts| && !posts[i].deleted && posts[i].slug == s;
      assert q[i] == posts[i];
    }
    if !p.deleted {
      assert q[|posts|] == p;
      assert p.slug in LiveSlugs(q);
    }
  }

  /**
   * Rewriting one row keeps the live slugs unique when the new slug is the
   * row's own or one no live post has.
   */
  lemma ReplaceKeepsUnique(posts: seq<Post>, id: nat, p: Post)
    requires id < |posts| && !posts[id].deleted
    requires p.slug == posts[id].slug || p.slug !in LiveSlugs(posts)
    requires UniqueLiveSlugs(posts)
    ensures UniqueLiveSlugs(posts[id := p])
  {
    var q := posts[id := p];
    forall i, j | 0 <= i < j < |q| && !q[i].deleted && !q[j].deleted
      ensures q[i].slug != q[j].slug
    {
      if i == id {
        assert q[j] == posts[j];
        assert posts[j].slug in LiveSlugs(posts);
      } else if j == id {
        assert q[i] == posts[i];
        assert posts[i].slug in LiveSlugs(posts);
      } else {
        assert q[i] == posts[i] && q[j] == posts[j];
      }
    }
  }

  /** Flagging a live row deleted frees its slug when the live slugs were unique. */
  lemma DeleteFreesSlug(posts: seq<Post>, id: nat)
    requires id < |posts| && !posts[id].deleted
    requires UniqueLiveSlugs(posts)
    ensures var q := posts[id := posts[id].(deleted := true)];
            UniqueLiveSlugs(q) && posts[id].slug !in LiveSlugs(q)
  {
    var q := posts[id := posts[id].(deleted := true)];
    forall i | 0 <= i < |q| && !q[i].deleted
      ensures q[i].slug != posts[id].slug
    {
      assert i != id && q[i] == posts[i];
    }
    forall i, j | 0 <= i < j < |q| && !q[i].deleted && !q[j].deleted
      ensures q[i].slug != q[j].slug
    {
      assert q[i] == posts[i] && q[j] == posts[j];
    }
  }

  /** The in-memory store: the posts table and the tags table, ids being positions. */
  class Blog {
    const lib: Helpers
    var posts: seq<Post>
    var tags: seq<Tag>

    /**
     * Referential integrity of the `post_tag` pivot: every tag id attached to
     * a post names a row of the tags table. Every method keeps it.
     */
    ghost predicate Valid()
      reads this
    {
      forall i, t :: 0 <= i < |posts| && t in posts[i].tags ==> t < |tags|
    }

    constructor (lib: Helpers)
      ensures Valid() && this.lib == lib && posts == [] && tags == []
    {
      this.lib := lib;
      posts := [];
      tags := [];
    }

    /**
     * createSlug: normalise the title; `firstOrFail` fails unless a live post
     * has that slug; then probe `slug-2`, `slug-3`, ... for the first free one.
     */
    method CreateSlug(title: string) returns (r: Result<string, SlugFailure>)
      ensures r == GeneratedSlug(lib.slug(title), LiveSlugs(posts))
      ensures r.Success? ==> r.value !in LiveSlugs(posts)
    {
      var base := lib.slug(title);
      var post := FirstLive(posts, base);
      if post.None? {
        return Failure(BaseSlugNotFound);
      }
      ghost var taken := LiveSlugs(posts);
      var slug := base;
      var inc := 2;
      while true
        invariant 2 <= inc
        invariant base in taken
        invariant forall j :: 2 <= j < inc ==> Candidate(base, j) in taken
        decreases |taken| + 2 - inc
      {
        var check := FirstLive(posts, Candidate(base, inc));
        if check.None? {
          slug := Candidate(base, inc);
          GeneratedSlugIsLeastFree(base, taken, inc);
          break;
        }
        CandidatesBounded(taken, base, inc + 1);
        inc := inc + 1;
      }
      return Success(slug);
    }

    /**
     * addTags: for each name in order, the first tag row with that name and
     * its derived slug, created when missing; the ids in input order.
     */
    method AddTags(names: seq<string>) returns (ids: seq<nat>)
      requires Valid()
      modifies this
      ensures Valid()
      ensures posts == old(posts)
      ensures (tags, ids) == Resolve(lib.slug, old(tags), names)
      ensures |ids| == |names|
      ensures forall i :: 0 <= i < |names| ==> ids[i] < |tags| && tags[ids[i]] == TagFor(lib.slug, names[i])
    {
      ids := [];
      ghost var goal := Resolve(lib.slug, tags, names);
      assert names[0..] == names;
      for i := 0 to |names|
        invariant posts == old(posts)
        invariant goal.0 == Resolve(lib.slug, tags, names[i..]).0
        invariant goal.1 == ids + Resolve(lib.slug, tags, names[i..]).1
      {
        ghost var before := tags;
        var t := TagFor(lib.slug, names[i]);
        var id;
        match FirstTag(tags, t) {
          case Some(j) =>
            id := j;
          case None =>
            tags := tags + [t];
            id := |tags| - 1;
        }
        assert (tags, id) == FindOrCreate(before, t);
        ResolveAdvance(lib.slug, before, names, i, ids);
        ids := ids + [id];
      }
      assert names[|names|..] == [];
      assert Resolve(lib.slug, tags, []) == (tags, []);
      assert ids + [] == ids;
      assert goal == (tags, ids);
      ResolveIds(lib.slug, old(tags), names);
    }

    /**
     * The slug choice of `store`: `createSlug` on the title without a filled
     * slug; otherwise the normalised slug, refused when a live post has it.
     */
    method SettleSlug(input: Input) returns (r: Result<string, SlugFailure>)
      ensures r == StoreSlug(lib, LiveSlugs(posts), input)
    {
      if !Filled(input, "slug") {
        r := CreateSlug(TextAt(input, "title"));
      } else {
        var slug := lib.slug(TextAt(input, "slug"));
        var check := FirstLive(posts, slug);
        if check.Some? {
          return Failure(SlugTaken);
        }
        r := Success(slug);
      }
    }

    /** `Post::create` of a row with no tags, then `attach` of the ids `addTags` yields. */
    method CreateAndAttach(row: Post, names: seq<string>) returns (id: nat, post: Post)
      requires Valid() && row.tags == {}
      modifies this
      ensures Valid()
      ensures post == row.(tags := TagIds(Resolve(lib.slug, old(tags), names).1))
      ensures id == |old(posts)| && posts == old(posts) + [post]
      ensures tags == Resolve(lib.slug, old(tags), names).0
    {
      posts := posts + [row];
      id := |posts| - 1;
      var ids := AddTags(names);
      post := row.(tags := row.tags + TagIds(ids));
      posts := posts[id := post];
    }

    /** store: validate, settle the slug, create the row owned by `user`, attach the tags. */
    method Store(input: Input, user: nat) returns (reply: Reply<PostView>)
      requires Valid()
      modifies this
      ensures Valid()
      ensures !PostInputValid(input) ==>
        && reply == Sent(Response.SendError("Request not valid.", AllMessages(Validate(lib, input, PostRules)), Some(422)))
        && posts == old(posts) && tags == old(tags)
      ensures PostInputValid(input) && StoreSlug(lib, LiveSlugs(old(posts)), input) == Failure(SlugTaken) ==>
        && reply == Sent(Response.SendError("Request not valid.", ["Slug already exists."], Some(422)))
        && posts == old(posts) && tags == old(tags)
      ensures PostInputValid(input) && StoreSlug(lib, LiveSlugs(old(posts)), input) == Failure(BaseSlugNotFound) ==>
        && reply == Thrown(ModelNotFound)
        && posts == old(posts) && tags == old(tags)
      ensures PostInputValid(input) && StoreSlug(lib, LiveSlugs(old(posts)), input).Success? ==>
        var resolved := Resolve(lib.slug, old(tags), ListAt(input, "tags"));
        var post := Post(TextAt(input, "title"), StoreSlug(lib, LiveSlugs(old(posts)), input).value,
                         TextAt(input, "content"), TextAt(input, "status"), Num(user), false,
                         TagIds(resolved.1));
        && posts == old(posts) + [post]
        && tags == resolved.0
        && reply == Sent(Response.SendResponse(PostView(|old(posts)|, post), "Post created successfully."))
      ensures UniqueLiveSlugs(old(posts)) ==> UniqueLiveSlugs(posts)
    {
      var errors := Validate(lib, input, PostRules);
      PostRulesExact(lib, input);
      if errors != [] {
        return Sent(Response.SendError("Request not valid.", AllMessages(errors), Some(422)));
      }
      var settled := SettleSlug(input);
      match settled {
        case Failure(SlugTaken) =>
          return Sent(Response.SendError("Request not valid.", ["Slug already exists."], Some(422)));
        case Failure(BaseSlugNotFound) =>
          return Thrown(ModelNotFound);
        case Success(slug) =>
          var data := input["slug" := Str(slug)]["user_id" := Num(user)];
          var row := FillPost(EmptyPost, data);
          assert row == Post(TextAt(input, "title"), slug, TextAt(input, "content"), TextAt(input, "status"), Num(user), false, {});
          var id, post := CreateAndAttach(row, ListAt(input, "tags"));
          AppendKeepsUnique(old(posts), post);
          reply := Sent(Response.SendResponse(PostView(id, post), "Post created successfully."));
      }
    }

    /**
     * The slug choice of `updatePost`, in the order of its two `if`s: a new
     * slug from the changed title without a filled slug; a filled slug equal to the stored
     * one kept; any other filled slug normalised and refused when taken.
     */
    method SettleUpdateSlug(input: Input, id: nat) returns (r: Result<string, SlugFailure>)
      requires id < |posts|
      ensures r == UpdateSlug(lib, LiveSlugs(posts), posts[id], input)
    {
      var post := posts[id];
      r := Success(if "slug" in input then TextAt(input, "slug") else post.slug);
      if !Filled(input, "slug") && TextAt(input, "title") != post.title {
        r := CreateSlug(TextAt(input, "title"));
        if r.Failure? {
          return;
        }
      }
      if Filled(input, "slug") {
        if TextAt(input, "slug") == post.slug {
          r := Success(post.slug);
        } else {
          var slug := lib.slug(TextAt(input, "slug"));
          var check := FirstLive(posts, slug);
          if check.Some? {
            return Failure(SlugTaken);
          }
          r := Success(slug);
        }
      }
    }

    /** `$post->update($data)`, then `sync` of the ids `addTags` yields. */
    method UpdateAndSync(id: nat, data: Input, names: seq<string>) returns (post: Post)
      requires Valid() && id < |posts|
      modifies this
      ensures Valid()
      ensures post == FillPost(old(posts)[id], data).(tags := TagIds(Resolve(lib.slug, old(tags), names).1))
      ensures posts == old(posts)[id := post]
      ensures tags == Resolve(lib.slug, old(tags), names).0
    {
      posts := posts[id := FillPost(posts[id], data)];
      var ids := AddTags(names);
      post := posts[id].(tags := TagIds(ids));
      posts := posts[id := post];
    }

    /**
     * updatePost on the live row `id` (route binding resolves only live
     * posts): validate, settle the slug, mass-assign, replace the tag set.
     */
    method UpdatePost(input: Input, id: nat) returns (reply: Reply<PostView>)
      requires Valid() && id < |posts| && !posts[id].deleted
      modifies this
      ensures Valid()
      ensures !PostInputValid(input) ==>
        && reply == Sent(Response.SendError("Request not valid.", AllMessages(Validate(lib, input, PostRules)), None))
        && posts == old(posts) && tags == old(tags)
      ensures PostInputValid(input) && UpdateSlug(lib, LiveSlugs(old(posts)), old(posts)[id], input) == Failure(SlugTaken) ==>
        && reply == Sent(Response.SendError("Request not valid.", ["Slug already exists."], Some(422)))
        && posts == old(posts) && tags == old(tags)
      ensures PostInputValid(input) && UpdateSlug(lib, LiveSlugs(old(posts)), old(posts)[id], input) == Failure(BaseSlugNotFound) ==>
        && reply == Thrown(ModelNotFound)
        && posts == old(posts) && tags == old(tags)
      ensures PostInputValid(input) && UpdateSlug(lib, LiveSlugs(old(posts)), old(posts)[id], input).Success? ==>
        var resolved := Resolve(lib.slug, old(tags), ListAt(input, "tags"));
        var post := Post(TextAt(input, "title"), UpdateSlug(lib, LiveSlugs(old(posts)), old(posts)[id], input).value,
                         TextAt(input, "content"), TextAt(input, "status"),
                         if "user_id" in input then input["user_id"] else old(posts)[id].owner, false,
                         TagIds(resolved.1));
        && posts == old(posts)[id := post]
        && tags == resolved.0
        && reply == Sent(Response.SendResponse(PostView(id, post), "Post updated successfully."))
      ensures UniqueLiveSlugs(old(posts)) && !BlankSlugKept(input, old(posts)[id]) ==> UniqueLiveSlugs(posts)
    {
      var errors := Validate(lib, input, PostRules);
      PostRulesExact(lib, input);
      if errors != [] {
        return Sent(Response.SendError("Request not valid.", AllMessages(errors), None));
      }
      var settled := SettleUpdateSlug(input, id);
      match settled {
        case Failure(SlugTaken) =>
          return Sent(Response.SendError("Request not valid.", ["Slug already exists."], Some(422)));
        case Failure(BaseSlugNotFound) =>
          return Thrown(ModelNotFound);
        case Success(slug) =>
          var data := input["slug" := Str(slug)];
          UpdatedRow(posts[id], input, slug);
          var post := UpdateAndSync(id, data, ListAt(input, "tags"));
          if UniqueLiveSlugs(old(posts)) && !BlankSlugKept(input, old(posts)[id]) {
            ReplaceKeepsUnique(old(posts), id, post);
          }
          reply := Sent(Response.SendResponse(PostView(id, post), "Post updated successfully."));
      }
    }

    /** show: the first live post with the slug, or the default 404 error. */
    function Show(slug: string): (r: Envelope<PostView>)
      reads this
      ensures r.code == 200 <==> slug in LiveSlugs(posts)
      ensures r.code == 200 ==>
        && r.message == "Post retrieved successfully."
        && r.data.Some? && r.data.value.Payload?
        && var v := r.data.value.value;
           && v.id < |posts| && v.post == posts[v.id] && LiveWith(v.post, slug)
           && (forall j :: 0 <= j < v.id ==> !LiveWith(posts[j], slug))
           && (Valid() ==> forall t :: t in v.post.tags ==> t < |tags|)
      ensures slug !in LiveSlugs(posts) ==> r == Response.SendError("Post not found.", [], None)
    {
      match FirstLive(posts, slug)
      case Some(i) => Response.SendResponse(PostView(i, posts[i]), "Post retrieved successfully.")
      case None => Response.SendError("Post not found.", [], None)
    }

    /**
     * destroy: SoftDeletes flags the live row `id`; its slug stops counting
     * for every later lookup.
     */
    method Destroy(id: nat) returns (r: Envelope<seq<PostView>>)
      requires Valid() && id < |posts| && !posts[id].deleted
      modifies this
      ensures Valid()
      ensures posts == old(posts)[id := old(posts)[id].(deleted := true)] && tags == old(tags)
      ensures r == BaseController.SendResponse([], "Post deleted successfully.")
      ensures UniqueLiveSlugs(old(posts)) ==> UniqueLiveSlugs(posts) && old(posts)[id].slug !in LiveSlugs(posts)
    {
      posts := posts[id := posts[id].(deleted := true)];
      r := BaseController.SendResponse([], "Post deleted successfully.");
      if UniqueLiveSlugs(old(posts)) {
        DeleteFreesSlug(old(posts), id);
      }
    }
  }

  /**
   * The first post ever stored, from a valid request without a filled slug,
   * ends in the uncaught not-found exception of `firstOrFail`.
   */
  method FirstStoreThrows(lib: Helpers, input: Input, user: nat) returns (reply: Reply<PostView>)
    requires PostInputValid(input) && !Filled(input, "slug")
    ensures reply == Thrown(ModelNotFound)
  {
    var blog := new Blog(lib);
    FirstPostNeedsExplicitSlug(lib, input);
    reply := blog.Store(input, user);
  }
}
