/** The custom-field handlers of settings.js on the database: what
    `POST /custom-fields` and `DELETE /custom-fields/:id` reply and leave. */
module FieldStore {
  import opened Wrappers
  import opened Json
  import opened Table
  import opened Registry
  import opened Database

  /** `POST /custom-fields`. A request the checks refuse changes nothing. An
      accepted one reaches the INSERT, which draws the next id, and then
      clashes with the caller's field of the same entity type and slug (400),
      fails for an owner that no longer exists (500), or adds the field with
      the next display order of its group. Nothing but custom_fields changes. */
  function PostCustomField(db: Tables, user: nat, entityType: Arg, fieldName: Arg, fieldType: Arg): (o: Outcome<Row<FieldDef>>)
    ensures o.db == db.(fields := o.db.fields, nextField := o.db.nextField, clock := o.db.clock)
    ensures Check(entityType, fieldName, fieldType).Reject? ==>
      o == Outcome(BadRequest(Check(entityType, fieldName, fieldType).error), db)
    ensures Check(entityType, fieldName, fieldType).Crash? ==>
      o == Outcome(Failed(Check(entityType, fieldName, fieldType).error), db)
    ensures Check(entityType, fieldName, fieldType).Accept? ==> o.db.nextField == db.nextField + 1
    ensures Check(entityType, fieldName, fieldType).Accept? ==>
      var d := Check(entityType, fieldName, fieldType).value;
      && (Clash(db.fields, user, d.entityType, d.slug) ==> o.reply == BadRequest(DuplicateField))
      && (!Clash(db.fields, user, d.entityType, d.slug) && user !in db.users ==> o.reply == Failed(ForeignKeyViolation))
      && (o.reply.Created? <==> !Clash(db.fields, user, d.entityType, d.slug) && user in db.users)
    ensures !o.reply.Created? ==> o.db.fields == db.fields && o.db.clock == db.clock
    ensures o.reply.Created? ==>
      var d := Check(entityType, fieldName, fieldType).value;
      var row := o.reply.body;
      && o.db.fields == db.fields + [row] && o.db.clock == db.clock + 1
      && row.id == db.nextField && row.user == user && row.created == db.clock
      && row.data == FieldDef(d.entityType, d.fieldName, d.slug, d.fieldType, NextOrder(db.fields, user, d.entityType))
  {
    match Check(entityType, fieldName, fieldType)
    case Reject(e) => Outcome(BadRequest(e), db)
    case Crash(e) => Outcome(Failed(e), db)
    case Accept(d) =>
      var drawn := db.(nextField := db.nextField + 1);
      if Clash(db.fields, user, d.entityType, d.slug) then Outcome(BadRequest(DuplicateField), drawn)
      else if user !in db.users then Outcome(Failed(ForeignKeyViolation), drawn)
      else
        var row := Row(db.nextField, user, db.clock, FieldDef(d.entityType, d.fieldName, d.slug, d.fieldType, NextOrder(db.fields, user, d.entityType)));
        Outcome(Created(row), drawn.(fields := db.fields + [row], clock := db.clock + 1))
  }

  lemma PostCustomFieldKeeps(db: Tables, user: nat, entityType: Arg, fieldName: Arg, fieldType: Arg)
    requires Schema(db)
    ensures Schema(PostCustomField(db, user, entityType, fieldName, fieldType).db)
  {
    var o := PostCustomField(db, user, entityType, fieldName, fieldType);
    var c := Check(entityType, fieldName, fieldType);
    if o.reply.Created? {
      var row := o.reply.body;
      assert row.data.entityType in EntityTypes && row.data.fieldType in FieldTypes;
      assert row.data.slug != [] && Slug.AllSlugChars(row.data.slug);
      InsertFieldKeeps(db, row);
    } else if c.Accept? {
      DrawKeeps(db, o.db);
    }
  }

  /** Inserting a sound custom field under a fresh id, for an existing user and
      with a triple no row has yet, keeps the schema. */
  lemma InsertFieldKeeps(db: Tables, row: Row<FieldDef>)
    requires Schema(db)
    requires row.id == db.nextField && row.created == db.clock && row.user in db.users
    requires !Clash(db.fields, row.user, row.data.entityType, row.data.slug)
    requires Sound([row])
    ensures Schema(db.(fields := db.fields + [row], nextField := db.nextField + 1, clock := db.clock + 1))
  {
    AppendWellFormed(db.fields, row, db.users);
    UniqueAppend(db.fields, row);
  }

  /** A known entity type with a name whose slug is not empty passes the checks. */
  lemma CheckAccepts(kind: string, name: string, fieldType: Arg)
    requires kind in EntityTypes && Slug.Derive(name) != []
    ensures Check(Given(Str(kind)), Given(Str(name)), fieldType).Accept?
    ensures Check(Given(Str(kind)), Given(Str(name)), fieldType).value.entityType == kind
    ensures Check(Given(Str(kind)), Given(Str(name)), fieldType).value.slug == Slug.Derive(name)
  {
  }

  /** A request that passes the checks adds a field exactly when the caller has
      none with the same entity type and slug; the same name under the other
      entity type, or for another tenant, is accepted. */
  lemma DefineTwice(db: Tables, user: nat, other: nat, kind: string, otherKind: string, name: string, fieldType: Arg)
    requires Schema(db) && user in db.users && other in db.users
    requires kind in EntityTypes && otherKind in EntityTypes && Slug.Derive(name) != []
    requires !Clash(db.fields, user, kind, Slug.Derive(name)) && !Clash(db.fields, user, otherKind, Slug.Derive(name))
    requires !Clash(db.fields, other, kind, Slug.Derive(name))
    requires other != user && otherKind != kind
    ensures var first := PostCustomField(db, user, Given(Str(kind)), Given(Str(name)), fieldType);
      && first.reply.Created?
      && PostCustomField(first.db, user, Given(Str(kind)), Given(Str(name)), fieldType).reply == BadRequest(DuplicateField)
      && PostCustomField(first.db, user, Given(Str(otherKind)), Given(Str(name)), fieldType).reply.Created?
      && PostCustomField(first.db, other, Given(Str(kind)), Given(Str(name)), fieldType).reply.Created?
  {
    var slug := Slug.Derive(name);
    CheckAccepts(kind, name, fieldType);
    CheckAccepts(otherKind, name, fieldType);
    var first := PostCustomField(db, user, Given(Str(kind)), Given(Str(name)), fieldType);
    assert first.reply.Created?;
    var row := first.reply.body;
    assert first.db.fields == db.fields + [row] && first.db.users == db.users;
    ClashAppend(db.fields, row, user, kind, slug);
    ClashAppend(db.fields, row, user, otherKind, slug);
    ClashAppend(db.fields, row, other, kind, slug);
  }

  /** `DELETE /custom-fields/:id`: the caller's field with that id goes and
      every other row stays; without one the reply is 404 and nothing changes.
      No other table, and so no contact or company bag, is touched. */
  function DeleteCustomField(db: Tables, user: nat, id: nat): (o: Outcome<()>)
    requires Schema(db)
    ensures o.db == db.(fields := o.db.fields)
    ensures o.reply == NoContent <==> id in OwnedIds(db.fields, user)
    ensures o.reply != NoContent ==> o == Outcome(NotFound(FieldNotFound), db)
    ensures o.reply == NoContent ==> forall x :: x in o.db.fields <==> x in db.fields && x.id != id
    ensures o.reply == NoContent ==> |o.db.fields| == |db.fields| - 1
  {
    FindOwned(db.fields, id, user);
    match Find(db.fields, id, user)
    case None => Outcome(NotFound(FieldNotFound), db)
    case Some(k) =>
      WithoutExactly(db.fields, k);
      Outcome(NoContent, db.(fields := Without(db.fields, k)))
  }

  lemma DeleteCustomFieldKeeps(db: Tables, user: nat, id: nat)
    requires Schema(db)
    ensures Schema(DeleteCustomField(db, user, id).db)
  {
    match Find(db.fields, id, user)
    case None =>
    case Some(k) => WithoutWellFormed(db.fields, k, db.nextField, db.clock, db.users);
  }
}
