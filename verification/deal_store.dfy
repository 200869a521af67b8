/** The deals handlers of deals.js on the database: what `POST /deals`,
    `PUT /deals/:id` and `DELETE /deals/:id` reply and leave. */
module DealStore {
  import opened Wrappers
  import opened Json
  import opened Table
  import opened Deals
  import opened Database

  /** `POST /deals`: a falsy title is refused and a reference that is not an
      integer fails before the INSERT runs, both changing nothing; once the
      INSERT runs it draws the next id, and it adds the row unless a
      referenced contact or company, or the owner, does not exist. Only the
      deals table changes. */
  function PostDeal(db: Tables, user: nat, title: Arg, value: Arg, stage: Arg, contact: Arg, company: Arg): (o: Outcome<Row<Deal>>)
    ensures o.db == db.(deals := o.db.deals, nextDeal := o.db.nextDeal, clock := o.db.clock)
    ensures !Supplied(title) ==> o == Outcome(BadRequest(TitleRequired), db)
    ensures o.db.nextDeal == db.nextDeal
      + (if Executes(Fresh(title, value, stage, contact, company, Ids(db.contacts), Ids(db.companies))) then 1 else 0)
    ensures o.reply.Created? <==> Fresh(title, value, stage, contact, company, Ids(db.contacts), Ids(db.companies)).Accept? && user in db.users
    ensures !o.reply.Created? ==> o.db.deals == db.deals && o.db.clock == db.clock && (o.reply.BadRequest? || o.reply.Failed?)
    ensures o.reply.Created? ==>
      var row := o.reply.body;
      && o.db.deals == db.deals + [row] && o.db.clock == db.clock + 1
      && row.id == db.nextDeal && row.user == user && row.created == db.clock
      && Fresh(title, value, stage, contact, company, Ids(db.contacts), Ids(db.companies)) == Accept(row.data)
  {
    var c := Fresh(title, value, stage, contact, company, Ids(db.contacts), Ids(db.companies));
    var drawn := db.(nextDeal := db.nextDeal + 1);
    match c
    case Reject(e) => Outcome(BadRequest(e), db)
    case Crash(e) => Outcome(Failed(e), if Executes(c) then drawn else db)
    case Accept(deal) =>
      if user !in db.users then Outcome(Failed(ForeignKeyViolation), drawn)
      else
        var row := Row(db.nextDeal, user, db.clock, deal);
        Outcome(Created(row), drawn.(deals := db.deals + [row], clock := db.clock + 1))
  }

  lemma PostDealKeeps(db: Tables, user: nat, title: Arg, value: Arg, stage: Arg, contact: Arg, company: Arg)
    requires Schema(db)
    ensures Schema(PostDeal(db, user, title, value, stage, contact, company).db)
  {
    var o := PostDeal(db, user, title, value, stage, contact, company);
    if o.reply.Created? {
      AppendWellFormed(db.deals, o.reply.body, db.users);
    } else {
      DrawKeeps(db, o.db);
    }
  }

  /** A reference the update cannot bind: a non-null value that is not an integer. */
  predicate Unbindable(a: Arg)
  {
    Replaces(a) && !IsInteger(a.v)
  }

  /** `PUT /deals/:id`: a reference that is not an integer fails before
      anything else; then, without a deal of the caller with that id, the reply
      is 404; otherwise the COALESCE of every column goes into that one row,
      unless a new reference names no row. */
  function PutDeal(db: Tables, user: nat, id: nat, title: Arg, value: Arg, stage: Arg, contact: Arg, company: Arg): (o: Outcome<Row<Deal>>)
    ensures o.db == db.(deals := o.db.deals)
    ensures Unbindable(contact) || Unbindable(company) ==> o == Outcome(Failed(InvalidInteger), db)
    ensures !(Unbindable(contact) || Unbindable(company)) && id !in OwnedIds(db.deals, user) ==>
      o == Outcome(NotFound(DealNotFound), db)
    ensures !o.reply.Ok? ==> o.db == db
    ensures o.reply.Ok? <==>
      id in OwnedIds(db.deals, user)
      && Patch(db.deals[Find(db.deals, id, user).value].data, title, value, stage, contact, company, Ids(db.contacts), Ids(db.companies)).Accept?
    ensures o.reply.Ok? ==>
      var k := Find(db.deals, id, user).value;
      && Patch(db.deals[k].data, title, value, stage, contact, company, Ids(db.contacts), Ids(db.companies)) == Accept(o.reply.body.data)
      && o.db.deals == Replace(db.deals, k, o.reply.body.data)
      && o.reply.body == o.db.deals[k] && o.reply.body.id == id && o.reply.body.user == user
  {
    FindOwned(db.deals, id, user);
    if Unbindable(contact) || Unbindable(company) then Outcome(Failed(InvalidInteger), db)
    else match Find(db.deals, id, user)
      case None => Outcome(NotFound(DealNotFound), db)
      case Some(k) =>
        match Patch(db.deals[k].data, title, value, stage, contact, company, Ids(db.contacts), Ids(db.companies))
        case Reject(e) => Outcome(Failed(e), db)
        case Crash(e) => Outcome(Failed(e), db)
        case Accept(deal) =>
          var t := Replace(db.deals, k, deal);
          Outcome(Ok(t[k]), db.(deals := t))
  }

  lemma PutDealKeeps(db: Tables, user: nat, id: nat, title: Arg, value: Arg, stage: Arg, contact: Arg, company: Arg)
    requires Schema(db)
    ensures Schema(PutDeal(db, user, id, title, value, stage, contact, company).db)
  {
    var o := PutDeal(db, user, id, title, value, stage, contact, company);
    if o.reply.Ok? {
      var k := Find(db.deals, id, user).value;
      assert db.deals[k] in db.deals;
      ReplaceWellFormed(db.deals, k, o.reply.body.data, db.nextDeal, db.clock, db.users);
      ReplaceKeeps(db.deals, k, o.reply.body.data);
    }
  }

  /** `DELETE /deals/:id`: the caller's deal with that id goes and every other
      deal stays; without one the reply is 404 and nothing changes. */
  function DeleteDeal(db: Tables, user: nat, id: nat): (o: Outcome<()>)
    requires Schema(db)
    ensures o.db == db.(deals := o.db.deals)
    ensures o.reply == NoContent <==> id in OwnedIds(db.deals, user)
    ensures o.reply != NoContent ==> o == Outcome(NotFound(DealNotFound), db)
    ensures o.reply == NoContent ==> forall x :: x in o.db.deals <==> x in db.deals && x.id != id
  {
    FindOwned(db.deals, id, user);
    match Find(db.deals, id, user)
    case None => Outcome(NotFound(DealNotFound), db)
    case Some(k) =>
      WithoutExactly(db.deals, k);
      Outcome(NoContent, db.(deals := Without(db.deals, k)))
  }

  lemma DeleteDealKeeps(db: Tables, user: nat, id: nat)
    requires Schema(db)
    ensures Schema(DeleteDeal(db, user, id).db)
  {
    match Find(db.deals, id, user)
    case None =>
    case Some(k) => WithoutWellFormed(db.deals, k, db.nextDeal, db.clock, db.users);
  }
}
