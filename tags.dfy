/**
 * The tag table and the find-or-create step behind `addTags`: for each name,
 * the first tag row with that name and the derived slug, or a new row.
 */
module TagResolver {
  import opened Wrappers

  /** A row of the tags table; its id is its position. */
  datatype Tag = Tag(name: string, slug: string)

  /** The row `firstOrCreate` looks for and, failing that, creates for `name`. */
  function TagFor(slugify: string -> string, name: string): Tag {
    Tag(name, slugify(name))
  }

  /** `->where(...)->first()` on the tags table: the lowest id of a row equal to `t`. */
  function FirstTag(tags: seq<Tag>, t: Tag): (r: Option<nat>)
    ensures r.Some? ==> r.value < |tags| && tags[r.value] == t
    ensures r.Some? ==> forall j :: 0 <= j < r.value ==> tags[j] != t
    ensures r.None? <==> t !in tags
    decreases |tags|
  {
    if tags == [] then None
    else
      var front := tags[..|tags| - 1];
      assert tags == front + [tags[|tags| - 1]];
      var r := FirstTag(front, t);
      if r.Some? then r
      else if tags[|tags| - 1] == t then Some(|tags| - 1)
      else None
  }

  /** Appending rows never changes which row a lookup finds first once one exists. */
  lemma FirstTagStable(before: seq<Tag>, after: seq<Tag>, t: Tag)
    requires before <= after
    requires FirstTag(before, t).Some?
    ensures FirstTag(after, t) == FirstTag(before, t)
  {
    var i := FirstTag(before, t).value;
    assert after[i] == t;
    assert forall j :: 0 <= j < |before| ==> after[j] == before[j];
  }

  /** `firstOrCreate` for one row: reuse the first equal row, else append it. */
  function FindOrCreate(tags: seq<Tag>, t: Tag): (r: (seq<Tag>, nat))
    ensures t in tags ==> r.0 == tags
    ensures t !in tags ==> r.0 == tags + [t]
    ensures FirstTag(r.0, t) == Some(r.1)
  {
    match FirstTag(tags, t)
    case Some(i) => (tags, i)
    case None =>
      assert (tags + [t])[..|tags|] == tags;
      (tags + [t], |tags|)
  }

  /** The foreach of `addTags`: the final tag table and the id per input name, in order. */
  function Resolve(slugify: string -> string, tags: seq<Tag>, names: seq<string>): (r: (seq<Tag>, seq<nat>))
    ensures |r.1| == |names|
    ensures tags <= r.0
    decreases |names|
  {
    if names == [] then (tags, [])
    else
      var (after, id) := FindOrCreate(tags, TagFor(slugify, names[0]));
      var (final, ids) := Resolve(slugify, after, names[1..]);
      (final, [id] + ids)
  }

  /** One step of the foreach: resolving names[i..] is resolving names[i], then the rest. */
  lemma ResolveStep(slugify: string -> string, tags: seq<Tag>, names: seq<string>, i: nat)
    requires i < |names|
    ensures var step := FindOrCreate(tags, TagFor(slugify, names[i]));
            var rest := Resolve(slugify, step.0, names[i + 1..]);
            Resolve(slugify, tags, names[i..]) == (rest.0, [step.1] + rest.1)
  {
    assert names[i..][0] == names[i] && names[i..][1..] == names[i + 1..];
  }

  /** ResolveStep as the loop of `addTags` carries it: ids so far, then the rest. */
  lemma ResolveAdvance(slugify: string -> string, tags: seq<Tag>, names: seq<string>, i: nat, done: seq<nat>)
    requires i < |names|
    ensures var step := FindOrCreate(tags, TagFor(slugify, names[i]));
            var now := Resolve(slugify, tags, names[i..]);
            var next := Resolve(slugify, step.0, names[i + 1..]);
            now.0 == next.0 && done + now.1 == (done + [step.1]) + next.1
  {
    ResolveStep(slugify, tags, names, i);
    var step := FindOrCreate(tags, TagFor(slugify, names[i]));
    var next := Resolve(slugify, step.0, names[i + 1..]);
    AppendAssoc(done, step.1, next.1);
  }

  /**
   * Regrouping one id between two runs of ids; a separate lemma keeps this
   * step out of ResolveAdvance's larger proof context.
   */
  lemma AppendAssoc(a: seq<nat>, x: nat, b: seq<nat>)
    ensures a + ([x] + b) == (a + [x]) + b
  {
  }

  /**
   * One id per input name, in input order; rows are only appended; the id for
   * each name is the first row of the final table with that name and slug.
   */
  lemma {:induction false} ResolveIds(slugify: string -> string, tags: seq<Tag>, names: seq<string>)
    ensures var (final, ids) := Resolve(slugify, tags, names);
            && |ids| == |names|
            && tags <= final
            && forall i :: 0 <= i < |names| ==>
                 ids[i] < |final| && final[ids[i]] == TagFor(slugify, names[i]) &&
                 FirstTag(final, TagFor(slugify, names[i])) == Some(ids[i])
    decreases |names|
  {
    if names != [] {
      var t := TagFor(slugify, names[0]);
      var (after, id) := FindOrCreate(tags, t);
      ResolveIds(slugify, after, names[1..]);
      var (final, ids) := Resolve(slugify, after, names[1..]);
      FirstTagStable(after, final, t);
      assert forall i :: 1 <= i < |names| ==> names[i] == names[1..][i - 1];
    }
  }

  /**
   * Every appended row is the derived row of some input name, was absent from
   * the table before, and is the first row equal to itself (no row is created twice).
   */
  lemma {:induction false} ResolveCreated(slugify: string -> string, tags: seq<Tag>, names: seq<string>)
    ensures var final := Resolve(slugify, tags, names).0;
            forall j :: |tags| <= j < |final| ==>
              && final[j] !in tags
              && final[j].name in names
              && final[j] == TagFor(slugify, final[j].name)
              && FirstTag(final, final[j]) == Some(j)
    decreases |names|
  {
    if names != [] {
      var t := TagFor(slugify, names[0]);
      var (after, id) := FindOrCreate(tags, t);
      ResolveCreated(slugify, after, names[1..]);
      ResolveIds(slugify, after, names[1..]);
      var final := Resolve(slugify, after, names[1..]).0;
      if t !in tags {
        FirstTagStable(after, final, t);
        assert final[|tags|] == after[|tags|] == t;
      }
      forall j | |after| <= j < |final|
        ensures final[j].name in names
      {
        assert final[j].name in names[1..];
      }
    }
  }

  /** Repeated names resolve to one id. */
  lemma SameNameSameId(slugify: string -> string, tags: seq<Tag>, names: seq<string>, i: nat, j: nat)
    requires i < |names| && j < |names| && names[i] == names[j]
    ensures |Resolve(slugify, tags, names).1| == |names|
    ensures Resolve(slugify, tags, names).1[i] == Resolve(slugify, tags, names).1[j]
  {
    ResolveIds(slugify, tags, names);
  }

  /** A name whose row already exists gets that row's id, the first there was. */
  lemma ExistingTagReused(slugify: string -> string, tags: seq<Tag>, names: seq<string>, i: nat)
    requires i < |names|
    requires TagFor(slugify, names[i]) in tags
    ensures |Resolve(slugify, tags, names).1| == |names|
    ensures Resolve(slugify, tags, names).1[i] == FirstTag(tags, TagFor(slugify, names[i])).value
  {
    ResolveIds(slugify, tags, names);
    FirstTagStable(tags, Resolve(slugify, tags, names).0, TagFor(slugify, names[i]));
  }

  /** When every name's row exists already, nothing is created. */
  lemma {:induction false} ResolveCreatesNothing(slugify: string -> string, tags: seq<Tag>, names: seq<string>)
    requires forall i :: 0 <= i < |names| ==> TagFor(slugify, names[i]) in tags
    ensures Resolve(slugify, tags, names).0 == tags
    decreases |names|
  {
    if names != [] {
      assert forall i :: 1 <= i < |names| ==> names[1..][i - 1] == names[i];
      ResolveCreatesNothing(slugify, tags, names[1..]);
    }
  }

  /** Running `addTags` a second time on the same names creates no tag and returns the same ids. */
  lemma ResolveIdempotent(slugify: string -> string, tags: seq<Tag>, names: seq<string>)
    ensures var first := Resolve(slugify, tags, names);
            Resolve(slugify, first.0, names) == first
  {
    var (final, ids) := Resolve(slugify, tags, names);
    ResolveIds(slugify, tags, names);
    ResolveCreatesNothing(slugify, final, names);
    ResolveIds(slugify, final, names);
    var again := Resolve(slugify, final, names).1;
    assert |again| == |ids|;
    forall i | 0 <= i < |ids|
      ensures again[i] == ids[i]
    {
    }
    assert again == ids;
    assert Resolve(slugify, final, names) == (final, ids);
  }

  /** No two rows of the table are equal. */
  ghost predicate Distinct(tags: seq<Tag>) {
    forall i, j :: 0 <= i < j < |tags| ==> tags[i] != tags[j]
  }

  /** `addTags` keeps a duplicate-free tag table duplicate-free. */
  lemma ResolveKeepsDistinct(slugify: string -> string, tags: seq<Tag>, names: seq<string>)
    requires Distinct(tags)
    ensures Distinct(Resolve(slugify, tags, names).0)
  {
    var final := Resolve(slugify, tags, names).0;
    ResolveIds(slugify, tags, names);
    ResolveCreated(slugify, tags, names);
    forall i, j | 0 <= i < j < |final|
      ensures final[i] != final[j]
    {
      if j < |tags| {
        assert final[i] == tags[i] && final[j] == tags[j];
      } else {
        assert FirstTag(final, final[j]) == Some(j);
      }
    }
  }
}
