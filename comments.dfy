/**
 * The comment workflow of the Comment model: a validation gate, a forced
 * `pending` status on create, and mass assignment limited to `$fillable`,
 * over an in-memory comments table.
 */
module Comments {
  import opened Wrappers
  import opened Text
  import opened Framework
  import opened Requests
  import opened Validation
  import opened JsonEnvelope
  import Response

  /** A row of the comments table: column name to the value assigned. */
  type Row = map<string, Value>

  /** What the comment endpoints send under `data`: the row and its id. */
  datatype CommentView = CommentView(id: nat, row: Row)

  /** The `$fillable` columns. */
  const Fillable: set<string> := {"name", "email", "comment", "reply_to", "post_id", "status"}

  const NameRules := FieldRules("name", false, [Required, IsString])
  const EmailRules := FieldRules("email", false, [Required, Email])
  const CommentRules := FieldRules("comment", false, [Required, IsString])
  const ReplyToRules := FieldRules("reply_to", true, [Numeric])
  const PostIdRules := FieldRules("post_id", false, [Required, Numeric])
  const StatusRules := FieldRules("status", false, [Required, In(["pending", "publish"])])

  /** The rules array of `store`. */
  const StoreRules: Schema := [NameRules, EmailRules, CommentRules, ReplyToRules, PostIdRules]

  /** The rules array of `updateComment`: those of `store` and a required status. */
  const UpdateRules: Schema := StoreRules + [StatusRules]

  predicate NumericValue(lib: Helpers, v: Value) {
    v.Num? || (v.Str? && !IsBlank(v.s) && lib.isNumeric(v.s))
  }

  /** The requests that pass StoreRules, stated directly. */
  predicate StoreInputValid(lib: Helpers, input: Input) {
    && "name" in input && input["name"].Str? && !IsBlank(input["name"].s)
    && "email" in input && input["email"].Str? && !IsBlank(input["email"].s) && lib.isEmail(input["email"].s)
    && "comment" in input && input["comment"].Str? && !IsBlank(input["comment"].s)
    && ("reply_to" in input ==>
          input["reply_to"].Num? ||
          (input["reply_to"].Str? && (IsBlank(input["reply_to"].s) || lib.isNumeric(input["reply_to"].s))))
    && "post_id" in input && NumericValue(lib, input["post_id"])
  }

  /** The requests that pass UpdateRules, stated directly. */
  predicate UpdateInputValid(lib: Helpers, input: Input) {
    && StoreInputValid(lib, input)
    && "status" in input && input["status"].Str? && input["status"].s in ["pending", "publish"]
  }

  lemma StoreRulesExact(lib: Helpers, input: Input)
    ensures Validate(lib, input, StoreRules) == [] <==> StoreInputValid(lib, input)
  {
    var s := StoreRules;
    ValidateCons(lib, input, s);
    ValidateCons(lib, input, s[1..]);
    ValidateCons(lib, input, s[2..]);
    ValidateCons(lib, input, s[3..]);
    ValidateCons(lib, input, s[4..]);
    assert s[1..][1..] == s[2..] && s[2..][1..] == s[3..] && s[3..][1..] == s[4..] && s[4..][1..] == [];
    RequiredString(lib, input, "name");
    RequiredEmail(lib, input, "email");
    RequiredString(lib, input, "comment");
    OptionalNumeric(lib, input, "reply_to");
    RequiredNumeric(lib, input, "post_id");
  }

  lemma UpdateRulesExact(lib: Helpers, input: Input)
    ensures Validate(lib, input, UpdateRules) == [] <==> UpdateInputValid(lib, input)
  {
    var s := UpdateRules;
    ValidateCons(lib, input, s);
    ValidateCons(lib, input, s[1..]);
    ValidateCons(lib, input, s[2..]);
    ValidateCons(lib, input, s[3..]);
    ValidateCons(lib, input, s[4..]);
    ValidateCons(lib, input, s[5..]);
    assert s[1..][1..] == s[2..] && s[2..][1..] == s[3..] && s[3..][1..] == s[4..];
    assert s[4..][1..] == s[5..] && s[5..][1..] == [];
    RequiredString(lib, input, "name");
    RequiredEmail(lib, input, "email");
    RequiredString(lib, input, "comment");
    OptionalNumeric(lib, input, "reply_to");
    RequiredNumeric(lib, input, "post_id");
    RequiredIn(lib, input, "status", ["pending", "publish"]);
  }

  /**
   * Eloquent's fill: every fillable key of `input` sets its column to the
   * value given; every other key of `input` is ignored.
   */
  function Fill(row: Row, input: Input): (r: Row)
    ensures forall k :: k in r <==> k in row || (k in input && k in Fillable)
    ensures forall k :: k in input && k in Fillable ==> r[k] == input[k]
    ensures forall k :: k in row && k !in (input.Keys * Fillable) ==> r[k] == row[k]
  {
    map k | k in row.Keys + (input.Keys * Fillable) :: if k in input && k in Fillable then input[k] else row[k]
  }

  /** Keys outside `$fillable` have no effect on what is written. */
  lemma FillIgnoresOthers(row: Row, input: Input, extra: string, v: Value)
    requires extra !in Fillable
    ensures Fill(row, input[extra := v]) == Fill(row, input)
  {
    assert (input[extra := v]).Keys * Fillable == input.Keys * Fillable;
  }

  /** The comments table, ids being positions. */
  class Board {
    const lib: Helpers
    var comments: seq<Row>

    /** Only fillable columns are ever written. */
    ghost predicate Valid()
      reads this
    {
      forall i :: 0 <= i < |comments| ==> comments[i].Keys <= Fillable
    }

    constructor (lib: Helpers)
      ensures Valid() && this.lib == lib && comments == []
    {
      this.lib := lib;
      comments := [];
    }

    /**
     * store: validate; force `status` to pending; create the row. `failure`
     * stands for an exception `create` raises, with its message.
     */
    method Store(input: Input, failure: Option<string>) returns (r: Envelope<CommentView>)
      requires Valid()
      modifies this
      ensures Valid()
      ensures !StoreInputValid(lib, input) ==>
        && r == Response.SendError("Request not valid.", AllMessages(Validate(lib, input, StoreRules)), Some(422))
        && comments == old(comments)
      ensures StoreInputValid(lib, input) && failure.Some? ==>
        && r == Response.SendError("Failed to add comment.", [failure.value], Some(422))
        && comments == old(comments)
      ensures StoreInputValid(lib, input) && failure.None? ==>
        |comments| == |old(comments)| + 1 && comments[..|old(comments)|] == old(comments)
      ensures StoreInputValid(lib, input) && failure.None? ==>
        var row := comments[|old(comments)|];
        && "status" in row && row["status"] == Str("pending")
        && (forall k :: k in Fillable && k != "status" ==> (k in row <==> k in input))
        && (forall k :: k in input && k in Fillable && k != "status" ==> row[k] == input[k])
        && r == Response.SendResponse(CommentView(|old(comments)|, row), "Comment added successfully")
    {
      var errors := Validate(lib, input, StoreRules);
      StoreRulesExact(lib, input);
      if errors != [] {
        return Response.SendError("Request not valid.", AllMessages(errors), Some(422));
      }
      var data := input["status" := Str("pending")];
      if failure.Some? {
        return Response.SendError("Failed to add comment.", [failure.value], Some(422));
      }
      var row := Fill(map[], data);
      comments := comments + [row];
      r := Response.SendResponse(CommentView(|comments| - 1, row), "Comment added successfully");
    }

    /** updateComment: validate, then mass-assign the input onto the row in place. */
    method UpdateComment(input: Input, id: nat) returns (r: Envelope<CommentView>)
      requires Valid() && id < |comments|
      modifies this
      ensures Valid()
      ensures !UpdateInputValid(lib, input) ==>
        && r == Response.SendError("Request not valid.", AllMessages(Validate(lib, input, UpdateRules)), Some(422))
        && comments == old(comments)
      ensures |comments| == |old(comments)|
      ensures UpdateInputValid(lib, input) ==>
        var row := comments[id];
        && (forall i :: 0 <= i < |comments| && i != id ==> comments[i] == old(comments)[i])
        && (forall k :: k in row <==> k in old(comments)[id] || (k in input && k in Fillable))
        && "status" in row && row["status"].Str? && row["status"].s in ["pending", "publish"]
        && (forall k :: k in input && k in Fillable ==> row[k] == input[k])
        && (forall k :: k !in input && k in old(comments)[id] ==> row[k] == old(comments)[id][k])
        && r == Response.SendResponse(CommentView(id, row), "Comment updated successfully.")
    {
      var errors := Validate(lib, input, UpdateRules);
      UpdateRulesExact(lib, input);
      if errors != [] {
        return Response.SendError("Request not valid.", AllMessages(errors), Some(422));
      }
      comments := comments[id := Fill(comments[id], input)];
      r := Response.SendResponse(CommentView(id, comments[id]), "Comment updated successfully.");
    }
  }
}
