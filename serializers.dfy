/** The two model serializers of app/serializers.py.

    A serializer is modelled by its list of declared fields, each with the
    flags the source sets on it (`read_only`, `write_only`, `required`) and
    the kind of value it takes. `Validate` is what `is_valid()` does with a
    request body: read-only fields are ignored, a missing required field and
    a value of the wrong kind are errors, and the validated data holds the
    client's values of the writable fields it supplied. `Represent` is what
    `serializer.data` does with a stored row: every field but the write-only
    ones is shown. */
module Serializers {
  import opened Wrappers
  import opened Models

  /** A value of a JSON request or response body. */
  datatype Value = Int(i: int) | Str(s: string)

  datatype Kind =
    | PrimaryKeyRelated  // a user id, checked against `User.objects.all()`
    | Char               // a declared `CharField` (blank text not allowed)
    | ModelText          // a text column of the model; its own checks live in app/models.py
    | Auto               // set by the database (primary key, creation time)

  datatype Field = Field(name: string, kind: Kind, readOnly: bool, writeOnly: bool, required: bool)

  datatype FieldError =
    | Required(field: string)
    | IncorrectType(field: string)  // a primary key that is not an integer
    | Invalid(field: string)        // a text field given something other than text
    | DoesNotExist(field: string, pk: int)
    | Blank(field: string)

  /** `UserSerializer`: `password` is a write-only `CharField`, `name` is not required. */
  function UserFields(): (fs: seq<Field>)
    ensures forall i :: 0 <= i < |fs| ==> (fs[i].readOnly <==> fs[i].name == "id")
    ensures forall i :: 0 <= i < |fs| ==> (fs[i].writeOnly <==> fs[i].name == "password")
    ensures forall i :: 0 <= i < |fs| && !fs[i].readOnly ==> (fs[i].required <==> fs[i].name != "name")
  {
    [ Field("id", Auto, true, false, false),
      Field("email", ModelText, false, false, true),
      Field("name", ModelText, false, false, false),
      Field("password", Char, false, true, true) ]
  }

  /** `FriendRequestSerializer`: `from_user` and `status` are read-only, `to_user`
      is a primary key into the user table. `created_at` is taken to be set on
      creation by the model, hence read-only. */
  function FriendRequestFields(): (fs: seq<Field>)
    ensures forall i :: 0 <= i < |fs| ==> (!fs[i].readOnly <==> fs[i].name == "to_user")
    ensures forall i :: 0 <= i < |fs| ==> !fs[i].writeOnly
    ensures forall i :: 0 <= i < |fs| && fs[i].name == "to_user" ==> fs[i].required && fs[i].kind == PrimaryKeyRelated
  {
    [ Field("id", Auto, true, false, false),
      Field("from_user", PrimaryKeyRelated, true, false, false),
      Field("to_user", PrimaryKeyRelated, false, false, true),
      Field("status", Char, true, false, false),
      Field("created_at", Auto, true, false, false) ]
  }

  /** The check a supplied value of field `f` must pass; `userIds` is the user table. */
  function CheckValue(f: Field, v: Value, userIds: set<Id>): Option<FieldError> {
    match f.kind
    case PrimaryKeyRelated =>
      if !v.Int? then Some(IncorrectType(f.name))
      else if v.i !in userIds then Some(DoesNotExist(f.name, v.i))
      else None
    case Char =>
      if !v.Str? then Some(Invalid(f.name))
      else if v.s == "" then Some(Blank(f.name))
      else None
    case ModelText =>
      if !v.Str? then Some(Invalid(f.name)) else None
    case Auto => None
  }

  /** The error `is_valid()` reports for field `f`, if any. */
  function FieldErrorOf(f: Field, input: map<string, Value>, userIds: set<Id>): Option<FieldError> {
    if f.readOnly then None
    else if f.name !in input then (if f.required then Some(Required(f.name)) else None)
    else CheckValue(f, input[f.name], userIds)
  }

  /** All field errors, in declaration order. */
  function Errors(fields: seq<Field>, input: map<string, Value>, userIds: set<Id>): (errs: seq<FieldError>)
    ensures errs == [] <==> forall i :: 0 <= i < |fields| ==> FieldErrorOf(fields[i], input, userIds) == None
    ensures forall e :: e in errs ==> exists i :: 0 <= i < |fields| && FieldErrorOf(fields[i], input, userIds) == Some(e)
    ensures forall i :: 0 <= i < |fields| && FieldErrorOf(fields[i], input, userIds).Some? ==>
      FieldErrorOf(fields[i], input, userIds).value in errs
  {
    if fields == [] then []
    else
      var rest := Errors(fields[1..], input, userIds);
      assert forall i :: 1 <= i < |fields| ==> fields[i] == fields[1..][i - 1];
      match FieldErrorOf(fields[0], input, userIds)
      case Some(e) => [e] + rest
      case None => rest
  }

  function Writable(fields: seq<Field>): set<string> {
    set i | 0 <= i < |fields| && !fields[i].readOnly :: fields[i].name
  }

  function Readable(fields: seq<Field>): set<string> {
    set i | 0 <= i < |fields| && !fields[i].writeOnly :: fields[i].name
  }

  /** `serializer.is_valid()` followed by `serializer.validated_data`. */
  function Validate(fields: seq<Field>, input: map<string, Value>, userIds: set<Id>): (r: Result<map<string, Value>, seq<FieldError>>)
    ensures r.Success? <==> forall i :: 0 <= i < |fields| ==> FieldErrorOf(fields[i], input, userIds) == None
    ensures r.Failure? ==> r.error != []
    ensures r.Failure? ==> forall i :: 0 <= i < |fields| && FieldErrorOf(fields[i], input, userIds).Some? ==>
      FieldErrorOf(fields[i], input, userIds).value in r.error
    ensures r.Failure? ==> forall e :: e in r.error ==>
      exists i :: 0 <= i < |fields| && FieldErrorOf(fields[i], input, userIds) == Some(e)
    ensures r.Success? ==> r.value.Keys == Writable(fields) * input.Keys
    ensures r.Success? ==> forall k :: k in r.value ==> r.value[k] == input[k]
  {
    var errs := Errors(fields, input, userIds);
    if errs == [] then Success(map k | k in Writable(fields) && k in input :: input[k])
    else Failure(errs)
  }

  /** `serializer.data` for a stored row given as its column values. */
  function Represent(fields: seq<Field>, row: map<string, Value>): (out: map<string, Value>)
    ensures forall i :: 0 <= i < |fields| && fields[i].writeOnly && fields[i].name !in Readable(fields) ==>
      fields[i].name !in out
    ensures forall i :: 0 <= i < |fields| && !fields[i].writeOnly && fields[i].name in row ==>
      fields[i].name in out && out[fields[i].name] == row[fields[i].name]
    ensures forall k :: k in out ==> k in row
  {
    map k | k in Readable(fields) && k in row :: row[k]
  }

  /** What a write-only column holds never shows: two rows that agree on the
      readable fields are represented alike. */
  lemma RepresentIgnoresWriteOnly(fields: seq<Field>, a: map<string, Value>, b: map<string, Value>)
    requires forall k :: k in Readable(fields) ==> (k in a <==> k in b)
    requires forall k :: k in Readable(fields) && k in a ==> a[k] == b[k]
    ensures Represent(fields, a) == Represent(fields, b)
  {
  }

  function UserRow(u: User): map<string, Value> {
    map["id" := Int(u.id), "email" := Str(u.email), "name" := Str(u.name), "password" := Str(u.passwordHash)]
  }

  function FriendRequestRow(r: FriendRequest): map<string, Value> {
    map["id" := Int(r.id), "from_user" := Int(r.fromUser), "to_user" := Int(r.toUser),
        "status" := Str(StatusName(r.status)), "created_at" := Int(r.createdAt)]
  }

  function UserRepresentation(u: User): map<string, Value> {
    Represent(UserFields(), UserRow(u))
  }

  function FriendRequestRepresentation(r: FriendRequest): map<string, Value> {
    Represent(FriendRequestFields(), FriendRequestRow(r))
  }

  /** Validation never looks at a read-only field: two request bodies that agree
      on the writable fields validate alike. */
  lemma {:induction false} ValidateIgnoresReadOnly(fields: seq<Field>, a: map<string, Value>, b: map<string, Value>, userIds: set<Id>)
    requires forall k :: k in Writable(fields) ==> (k in a <==> k in b)
    requires forall k :: k in Writable(fields) && k in a ==> a[k] == b[k]
    ensures Validate(fields, a, userIds) == Validate(fields, b, userIds)
  {
    ErrorsIgnoreReadOnly(fields, a, b, userIds);
    assert (map k | k in Writable(fields) && k in a :: a[k]) == (map k | k in Writable(fields) && k in b :: b[k]);
  }

  lemma {:induction false} ErrorsIgnoreReadOnly(fields: seq<Field>, a: map<string, Value>, b: map<string, Value>, userIds: set<Id>)
    requires forall k :: k in Writable(fields) ==> (k in a <==> k in b)
    requires forall k :: k in Writable(fields) && k in a ==> a[k] == b[k]
    ensures Errors(fields, a, userIds) == Errors(fields, b, userIds)
  {
    if fields != [] {
      assert Writable(fields[1..]) <= Writable(fields) by {
        forall k | k in Writable(fields[1..]) ensures k in Writable(fields) {
          var i :| 0 <= i < |fields[1..]| && !fields[1..][i].readOnly && fields[1..][i].name == k;
          assert fields[i + 1] == fields[1..][i];
        }
      }
      ErrorsIgnoreReadOnly(fields[1..], a, b, userIds);
      if !fields[0].readOnly {
        assert fields[0].name in Writable(fields);
      }
      assert FieldErrorOf(fields[0], a, userIds) == FieldErrorOf(fields[0], b, userIds);
    }
  }

  /** `FriendRequestSerializer` accepts a body exactly when `to_user` is the id of
      an existing user, and then its validated data is that id alone: whatever
      the client sends as `from_user`, `status`, `id` or `created_at` is dropped. */
  lemma FriendRequestInputRules(input: map<string, Value>, userIds: set<Id>)
    ensures var r := Validate(FriendRequestFields(), input, userIds);
      && (r.Success? <==> "to_user" in input && input["to_user"].Int? && input["to_user"].i in userIds)
      && (r.Success? ==> r.value == map["to_user" := input["to_user"]])
      && ("to_user" !in input ==> r == Failure([Required("to_user")]))
      && ("to_user" in input && input["to_user"].Int? && input["to_user"].i !in userIds ==>
            r == Failure([DoesNotExist("to_user", input["to_user"].i)]))
  {
    var fs := FriendRequestFields();
    assert Writable(fs) == {"to_user"} by {
      forall k | k in Writable(fs) ensures k == "to_user" {
        var i :| 0 <= i < |fs| && !fs[i].readOnly && fs[i].name == k;
      }
      assert !fs[2].readOnly;
    }
    assert forall i :: 0 <= i < |fs| && i != 2 ==> FieldErrorOf(fs[i], input, userIds) == None;
    ErrorsOfOneField(fs, 2, input, userIds);
  }

  /** When only the field at position `k` can fail, the error list is that field's error alone. */
  lemma {:induction false} ErrorsOfOneField(fields: seq<Field>, k: nat, input: map<string, Value>, userIds: set<Id>)
    requires k < |fields|
    requires forall i :: 0 <= i < |fields| && i != k ==> FieldErrorOf(fields[i], input, userIds) == None
    ensures Errors(fields, input, userIds) ==
      (match FieldErrorOf(fields[k], input, userIds) case Some(e) => [e] case None => [])
  {
    assert forall i :: 0 <= i < |fields[1..]| ==> fields[1..][i] == fields[i + 1];
    if k > 0 {
      ErrorsOfOneField(fields[1..], k - 1, input, userIds);
    }
  }

  /** `UserSerializer` requires `email` and a non-blank `password`; `name` may be left out. */
  lemma UserInputRules(input: map<string, Value>, userIds: set<Id>)
    ensures var r := Validate(UserFields(), input, userIds);
      && (r.Success? <==>
            && "email" in input && input["email"].Str?
            && "password" in input && input["password"].Str? && input["password"].s != ""
            && ("name" in input ==> input["name"].Str?))
      && (r.Success? ==> "email" in r.value && "password" in r.value && "id" !in r.value)
  {
    var fs := UserFields();
    assert Writable(fs) == {"email", "name", "password"} by {
      forall k | k in Writable(fs) ensures k in {"email", "name", "password"} {
        var i :| 0 <= i < |fs| && !fs[i].readOnly && fs[i].name == k;
      }
      assert !fs[1].readOnly && !fs[2].readOnly && !fs[3].readOnly;
    }
    assert FieldErrorOf(fs[1], input, userIds) == None <==> "email" in input && input["email"].Str?;
    assert FieldErrorOf(fs[2], input, userIds) == None <==> ("name" in input ==> input["name"].Str?);
    assert FieldErrorOf(fs[3], input, userIds) == None <==>
      "password" in input && input["password"].Str? && input["password"].s != "";
    var ok := forall i :: 0 <= i < |fs| ==> FieldErrorOf(fs[i], input, userIds) == None;
    assert ok <==> (FieldErrorOf(fs[1], input, userIds) == None
                    && FieldErrorOf(fs[2], input, userIds) == None
                    && FieldErrorOf(fs[3], input, userIds) == None);
  }

  /** A user's representation shows its id, email and name, never its password. */
  lemma UserRepresentationHidesPassword(u: User)
    ensures var out := UserRepresentation(u);
      && out.Keys == {"id", "email", "name"}
      && "password" !in out
      && out["id"] == Int(u.id) && out["email"] == Str(u.email) && out["name"] == Str(u.name)
  {
    var fs := UserFields();
    assert Readable(fs) == {"id", "email", "name"} by {
      forall k | k in Readable(fs) ensures k in {"id", "email", "name"} {
        var i :| 0 <= i < |fs| && !fs[i].writeOnly && fs[i].name == k;
      }
      assert !fs[0].writeOnly && !fs[1].writeOnly && !fs[2].writeOnly;
    }
  }

  /** A friend request's representation shows every column of the row. */
  lemma FriendRequestRepresentationShowsAll(r: FriendRequest)
    ensures var out := FriendRequestRepresentation(r);
      && out.Keys == {"id", "from_user", "to_user", "status", "created_at"}
      && out["from_user"] == Int(r.fromUser) && out["to_user"] == Int(r.toUser)
      && out["status"] == Str(StatusName(r.status))
  {
    var fs := FriendRequestFields();
    assert Readable(fs) == {"id", "from_user", "to_user", "status", "created_at"} by {
      forall k | k in Readable(fs) ensures k in {"id", "from_user", "to_user", "status", "created_at"} {
        var i :| 0 <= i < |fs| && !fs[i].writeOnly && fs[i].name == k;
      }
      assert !fs[0].writeOnly && !fs[1].writeOnly && !fs[2].writeOnly && !fs[3].writeOnly && !fs[4].writeOnly;
    }
  }
}
