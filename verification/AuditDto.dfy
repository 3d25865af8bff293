/** References to users in an audit event: which ids an event names, and how names are put in.

    Ids are numbers; the id a text parses to and the version of an id are parameters. */
module AuditDto {
  import opened Wrappers

  datatype Ids = Ids(parse: string -> Option<int>, version: int -> nat)

  type Names = map<int, string>

  datatype UserRef = UserRef(id: int, deleted: bool, displayName: Option<string>)

  /** A value in an event's details; a resolved reference is written as an object. */
  datatype Json = Text(s: string) | User(user: UserRef) | Other(n: int)

  datatype Details = Object(fields: map<string, Json>) | Scalar(n: int)

  datatype Row = Row(actor: Option<int>, owner: Option<int>, subject: Option<int>, details: Details)

  datatype Dto = Dto(actor: Option<UserRef>, owner: Option<UserRef>, subject: Option<UserRef>, details: Details)

  /** The id of a user who has been deleted is a pseudonym, which has version 8. */
  predicate Deleted(ids: Ids, id: int) {
    ids.version(id) == 8
  }

  function NameOf(names: Names, id: int): Option<string> {
    if id in names then Some(names[id]) else None
  }

  function Resolve(ids: Ids, names: Names, id: int): UserRef {
    UserRef(id, Deleted(ids, id), if Deleted(ids, id) then None else NameOf(names, id))
  }

  predicate IsUserKey(key: string) {
    var suffix := "_user_id";
    |key| >= |suffix| && key[|key| - |suffix|..] == suffix
  }

  /** The id a details field refers to. */
  function Referred(ids: Ids, key: string, value: Json): Option<int> {
    if IsUserKey(key) && value.Text? then ids.parse(value.s) else None
  }

  function OptionIds(o: Option<int>): set<int> {
    if o.Some? then {o.value} else {}
  }

  function ReferencedIds(ids: Ids, row: Row): set<int> {
    OptionIds(row.actor) + OptionIds(row.owner) + OptionIds(row.subject) +
    (if row.details.Object? then
       (set key | key in row.details.fields && Referred(ids, key, row.details.fields[key]).Some? ::
            Referred(ids, key, row.details.fields[key]).value)
     else {})
  }

  function ResolvedValue(ids: Ids, names: Names, key: string, value: Json): Json {
    match Referred(ids, key, value)
    case None => value
    case Some(id) => User(Resolve(ids, names, id))
  }

  function ResolvedDetails(ids: Ids, names: Names, d: Details): Details {
    match d
    case Scalar(_) => d
    case Object(fields) => Object(map key | key in fields :: ResolvedValue(ids, names, key, fields[key]))
  }

  function ResolvedUser(ids: Ids, names: Names, o: Option<int>): Option<UserRef> {
    if o.Some? then Some(Resolve(ids, names, o.value)) else None
  }

  function Built(ids: Ids, names: Names, row: Row): Dto {
    Dto(ResolvedUser(ids, names, row.actor), ResolvedUser(ids, names, row.owner), ResolvedUser(ids, names, row.subject),
        ResolvedDetails(ids, names, row.details))
  }

  /** `from_row`: rewrites the details field by field, in any order. */
  method FromRow(ids: Ids, names: Names, row: Row) returns (dto: Dto)
    ensures dto == Built(ids, names, row)
  {
    var details := row.details;
    if details.Object? {
      var given := details.fields;
      var fields := given;
      var todo := given.Keys;
      while todo != {}
        invariant todo <= given.Keys && fields.Keys == given.Keys
        invariant forall key :: key in given ==>
                                  fields[key] == if key in todo then given[key] else ResolvedValue(ids, names, key, given[key])
        decreases |todo|
      {
        var key :| key in todo;
        todo := todo - {key};
        var id := Referred(ids, key, fields[key]);
        if id.Some? {
          fields := fields[key := User(Resolve(ids, names, id.value))];
        }
      }
      assert fields == ResolvedDetails(ids, names, Object(given)).fields;
      details := Object(fields);
    }
    return Dto(ResolvedUser(ids, names, row.actor), ResolvedUser(ids, names, row.owner),
               ResolvedUser(ids, names, row.subject), details);
  }

  // ---------- Which names matter ----------

  /** Two name maps agree on the referenced ids of users who are not deleted. */
  ghost predicate AgreeOn(ids: Ids, row: Row, a: Names, b: Names) {
    forall id :: id in ReferencedIds(ids, row) && !Deleted(ids, id) ==> NameOf(a, id) == NameOf(b, id)
  }

  lemma SameUser(ids: Ids, a: Names, b: Names, id: int)
    ensures Resolve(ids, a, id) == Resolve(ids, b, id) <==> (!Deleted(ids, id) ==> NameOf(a, id) == NameOf(b, id))
  {
  }

  lemma SameDetails(ids: Ids, row: Row, a: Names, b: Names)
    requires row.details.Object?
    ensures ResolvedDetails(ids, a, row.details) == ResolvedDetails(ids, b, row.details) <==>
            forall key :: key in row.details.fields ==>
                            ResolvedValue(ids, a, key, row.details.fields[key]) == ResolvedValue(ids, b, key, row.details.fields[key])
  {
    hide ResolvedValue;
    var x, y := ResolvedDetails(ids, a, row.details).fields, ResolvedDetails(ids, b, row.details).fields;
    var fields := row.details.fields;
    assert forall key :: key in fields ==> x[key] == ResolvedValue(ids, a, key, fields[key]);
    assert forall key :: key in fields ==> y[key] == ResolvedValue(ids, b, key, fields[key]);
    if forall key :: key in fields ==> ResolvedValue(ids, a, key, fields[key]) == ResolvedValue(ids, b, key, fields[key]) {
      assert x == y;
    }
  }

  /** The event reads the same under two name maps exactly when they agree on the referenced ids of users who
      are not deleted: those names are enough, and each of them is needed. */
  lemma SameIffNamesAgree(ids: Ids, row: Row, a: Names, b: Names)
    ensures Built(ids, a, row) == Built(ids, b, row) <==> AgreeOn(ids, row, a, b)
  {
    hide Resolve, ResolvedDetails, Referred;
    if AgreeOn(ids, row, a, b) {
      forall id | id in ReferencedIds(ids, row) ensures Resolve(ids, a, id) == Resolve(ids, b, id) {
        SameUser(ids, a, b, id);
      }
    }
    if row.details.Object? {
      SameDetails(ids, row, a, b);
    } else {
      ScalarStays(ids, row, a, b);
    }
    if Built(ids, a, row) == Built(ids, b, row) {
      forall id | id in ReferencedIds(ids, row) && !Deleted(ids, id) ensures NameOf(a, id) == NameOf(b, id) {
        SameUser(ids, a, b, id);
        if row.details.Object? {
          if key :| key in row.details.fields && Referred(ids, key, row.details.fields[key]) == Some(id) {
            assert ResolvedValue(ids, a, key, row.details.fields[key]) == User(Resolve(ids, a, id));
          }
        }
      }
    }
  }

  lemma ScalarStays(ids: Ids, row: Row, a: Names, b: Names)
    ensures row.details.Scalar? ==> ResolvedDetails(ids, a, row.details) == ResolvedDetails(ids, b, row.details)
  {
  }

  /** Names fetched for the collected ids only give the same event as any larger map. */
  lemma FetchedNamesSuffice(ids: Ids, row: Row, names: Names)
    ensures var fetched := map id | id in names && id in ReferencedIds(ids, row) :: names[id];
            Built(ids, fetched, row) == Built(ids, names, row)
  {
    hide Built, ReferencedIds;
    var fetched := map id | id in names && id in ReferencedIds(ids, row) :: names[id];
    SameIffNamesAgree(ids, row, fetched, names);
  }

  /** A details field changes exactly when it is a text under a `_user_id` key that parses as an id; a
      deleted user's reference carries no name. */
  lemma OnlyReferencesChange(ids: Ids, names: Names, fields: map<string, Json>, key: string)
    requires key in fields
    ensures var d := ResolvedDetails(ids, names, Object(fields));
            && d.Object? && d.fields.Keys == fields.Keys
            && (d.fields[key] != fields[key] <==>
                  IsUserKey(key) && fields[key].Text? && ids.parse(fields[key].s).Some?)
            && (d.fields[key] != fields[key] ==>
                  && d.fields[key].User? && ids.parse(fields[key].s) == Some(d.fields[key].user.id)
                  && (Deleted(ids, d.fields[key].user.id) ==> d.fields[key].user.displayName == None))
  {
  }

  // ---------- Who is named where ----------

  /** The reference to a user: the id itself; deleted exactly for a pseudonym, which has version 8; and the
      user's name, unless deleted or unknown. */
  ghost predicate RefersTo(user: Option<UserRef>, ids: Ids, names: Names, o: Option<int>) {
    && (user.Some? <==> o.Some?)
    && (o.Some? ==>
          && user.value.id == o.value
          && (user.value.deleted <==> ids.version(o.value) == 8)
          && (user.value.displayName.Some? <==> ids.version(o.value) != 8 && o.value in names)
          && (user.value.displayName.Some? ==> user.value.displayName.value == names[o.value]))
  }

  /** Actor, owner and subject are those of the row, and so is every text under a key that ends in `_user_id`
      and parses as an id; any other field is as it was. */
  lemma EveryReferenceInPlace(ids: Ids, names: Names, row: Row)
    ensures var dto := Built(ids, names, row);
            && RefersTo(dto.actor, ids, names, row.actor)
            && RefersTo(dto.owner, ids, names, row.owner)
            && RefersTo(dto.subject, ids, names, row.subject)
            && (row.details.Scalar? ==> dto.details == row.details)
            && (row.details.Object? ==>
                  && dto.details.Object? && dto.details.fields.Keys == row.details.fields.Keys
                  && forall key :: key in row.details.fields ==>
                       FieldInPlace(dto.details.fields[key], ids, names, key, row.details.fields[key]))
  {
    if row.details.Object? {
      forall key | key in row.details.fields
        ensures FieldInPlace(ResolvedValue(ids, names, key, row.details.fields[key]), ids, names, key, row.details.fields[key])
      {
        KeySpelled(key);
      }
    }
  }

  ghost predicate FieldInPlace(after: Json, ids: Ids, names: Names, key: string, before: Json) {
    if (exists start :: key == start + "_user_id") && before.Text? && ids.parse(before.s).Some? then
      after.User? && RefersTo(Some(after.user), ids, names, ids.parse(before.s))
    else after == before
  }

  lemma KeySpelled(key: string)
    ensures IsUserKey(key) <==> exists start :: key == start + "_user_id"
  {
    if IsUserKey(key) {
      assert key == key[..|key| - 8] + "_user_id";
    }
    if start :| key == start + "_user_id" {
      assert key[|key| - 8..] == "_user_id";
    }
  }

  /** The ids collected for a row are exactly those it refers to. */
  lemma ReferencedIff(ids: Ids, row: Row, id: int)
    ensures id in ReferencedIds(ids, row) <==>
            || row.actor == Some(id) || row.owner == Some(id) || row.subject == Some(id)
            || (row.details.Object? && exists key ::
                  && key in row.details.fields && (exists start :: key == start + "_user_id")
                  && row.details.fields[key].Text? && ids.parse(row.details.fields[key].s) == Some(id))
  {
    if row.details.Object? {
      forall key | key in row.details.fields
        ensures Referred(ids, key, row.details.fields[key]) == Some(id) <==>
                (exists start :: key == start + "_user_id") && row.details.fields[key].Text?
                && ids.parse(row.details.fields[key].s) == Some(id)
      {
        KeySpelled(key);
      }
    }
  }
}
