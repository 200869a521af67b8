/** The contacts handlers of contacts.js on the database: what
    `POST /contacts`, `PUT /contacts/:id` and `DELETE /contacts/:id` reply
    and leave. */
module ContactStore {
  import opened Wrappers
  import opened Json
  import opened Table
  import Companies
  import opened Contacts
  import Deals
  import opened Database

  /** `POST /contacts`: a falsy name is refused and a company_id that is not an
      integer fails before the INSERT runs, both changing nothing; once the
      INSERT runs it draws the next id, and it adds the row unless the company
      or the owner does not exist. Only the contacts table changes. */
  function PostContact(db: Tables, user: nat, name: Arg, email: Arg, phone: Arg, company: Arg, bag: BagArg): (o: Outcome<Shown<Row<Contact>>>)
    ensures o.db == db.(contacts := o.db.contacts, nextContact := o.db.nextContact, clock := o.db.clock)
    ensures !Supplied(name) ==> o == Outcome(BadRequest(Companies.NameRequired), db)
    ensures Supplied(name) && Supplied(company) && !IsInteger(company.v) ==> o == Outcome(Failed(InvalidInteger), db)
    ensures o.db.nextContact == db.nextContact + (if Executes(Fresh(name, email, phone, company, bag, Ids(db.companies))) then 1 else 0)
    ensures o.reply.Created? <==> Fresh(name, email, phone, company, bag, Ids(db.companies)).Accept? && user in db.users
    ensures !o.reply.Created? ==> o.db.contacts == db.contacts && o.db.clock == db.clock && (o.reply.BadRequest? || o.reply.Failed?)
    ensures o.reply.Created? ==>
      var row := o.reply.body.row;
      && o.db.contacts == db.contacts + [row] && o.db.clock == db.clock + 1
      && row.id == db.nextContact && row.user == user && row.created == db.clock
      && Fresh(name, email, phone, company, bag, Ids(db.companies)) == Accept(row.data)
      && o.reply.body.customFields == CreateBag(bag)
  {
    var c := Fresh(name, email, phone, company, bag, Ids(db.companies));
    var drawn := db.(nextContact := db.nextContact + 1);
    match c
    case Reject(e) => Outcome(BadRequest(e), db)
    case Crash(e) => Outcome(Failed(e), if Executes(c) then drawn else db)
    case Accept(contact) =>
      if user !in db.users then Outcome(Failed(ForeignKeyViolation), drawn)
      else
        var row := Row(db.nextContact, user, db.clock, contact);
        Outcome(Created(Shown(row, Show(contact.customFields))), drawn.(contacts := db.contacts + [row], clock := db.clock + 1))
  }

  lemma PostContactKeeps(db: Tables, user: nat, name: Arg, email: Arg, phone: Arg, company: Arg, bag: BagArg)
    requires Schema(db)
    ensures Schema(PostContact(db, user, name, email, phone, company, bag).db)
  {
    var o := PostContact(db, user, name, email, phone, company, bag);
    if o.reply.Created? {
      AppendWellFormed(db.contacts, o.reply.body.row, db.users);
      IdsAppend(db.contacts, o.reply.body.row);
    } else {
      DrawKeeps(db, o.db);
    }
  }

  /** `PUT /contacts/:id`: a company_id that is not an integer fails before
      anything else; then, without a contact of the caller with that id, the
      reply is 404; otherwise the patched columns go into that one row, unless
      the name is null or the company_id names no company. */
  function PutContact(db: Tables, user: nat, id: nat, name: Arg, email: Arg, phone: Arg, company: Arg, bag: BagArg): (o: Outcome<Shown<Row<Contact>>>)
    ensures o.db == db.(contacts := o.db.contacts)
    ensures company.Given? && !IsInteger(company.v) ==> o == Outcome(Failed(InvalidInteger), db)
    ensures !(company.Given? && !IsInteger(company.v)) && id !in OwnedIds(db.contacts, user) ==>
      o == Outcome(NotFound(ContactNotFound), db)
    ensures !o.reply.Ok? ==> o.db == db
    ensures o.reply.Ok? <==>
      id in OwnedIds(db.contacts, user) && Patch(db.contacts[Find(db.contacts, id, user).value].data, name, email, phone, company, bag, Ids(db.companies)).Accept?
    ensures o.reply.Ok? ==>
      var k := Find(db.contacts, id, user).value;
      && Patch(db.contacts[k].data, name, email, phone, company, bag, Ids(db.companies)) == Accept(o.reply.body.row.data)
      && o.db.contacts == Replace(db.contacts, k, o.reply.body.row.data)
      && o.reply.body.row == o.db.contacts[k] && o.reply.body.row.id == id && o.reply.body.row.user == user
      && o.reply.body.customFields == Show(o.reply.body.row.data.customFields)
  {
    FindOwned(db.contacts, id, user);
    if company.Given? && !IsInteger(company.v) then Outcome(Failed(InvalidInteger), db)
    else match Find(db.contacts, id, user)
      case None => Outcome(NotFound(ContactNotFound), db)
      case Some(k) =>
        match Patch(db.contacts[k].data, name, email, phone, company, bag, Ids(db.companies))
        case Reject(e) => Outcome(Failed(e), db)
        case Crash(e) => Outcome(Failed(e), db)
        case Accept(contact) =>
          var t := Replace(db.contacts, k, contact);
          Outcome(Ok(Shown(t[k], Show(contact.customFields))), db.(contacts := t))
  }

  lemma PutContactKeeps(db: Tables, user: nat, id: nat, name: Arg, email: Arg, phone: Arg, company: Arg, bag: BagArg)
    requires Schema(db)
    ensures Schema(PutContact(db, user, id, name, email, phone, company, bag).db)
  {
    var o := PutContact(db, user, id, name, email, phone, company, bag);
    if o.reply.Ok? {
      var k := Find(db.contacts, id, user).value;
      assert db.contacts[k] in db.contacts;
      ReplaceWellFormed(db.contacts, k, o.reply.body.row.data, db.nextContact, db.clock, db.users);
      ReplaceKeeps(db.contacts, k, o.reply.body.row.data);
    }
  }

  /** `DELETE /contacts/:id`: the caller's contact with that id goes, every
      other contact stays, and `ON DELETE SET NULL` clears contact_id on the
      deals that named it, which stay; without such a contact the reply is 404
      and nothing changes. */
  function DeleteContact(db: Tables, user: nat, id: nat): (o: Outcome<()>)
    requires Schema(db)
    ensures o.db == db.(contacts := o.db.contacts, deals := o.db.deals)
    ensures o.reply == NoContent <==> id in OwnedIds(db.contacts, user)
    ensures o.reply != NoContent ==> o == Outcome(NotFound(ContactNotFound), db)
    ensures o.reply == NoContent ==>
      && (forall x :: x in o.db.contacts <==> x in db.contacts && x.id != id)
      && o.db.deals == Deals.Detach(db.deals, {id}, {})
  {
    FindOwned(db.contacts, id, user);
    match Find(db.contacts, id, user)
    case None => Outcome(NotFound(ContactNotFound), db)
    case Some(k) =>
      WithoutExactly(db.contacts, k);
      Outcome(NoContent, db.(contacts := Without(db.contacts, k), deals := Deals.Detach(db.deals, {id}, {})))
  }

  lemma DeleteContactKeeps(db: Tables, user: nat, id: nat)
    requires Schema(db)
    ensures Schema(DeleteContact(db, user, id).db)
  {
    match Find(db.contacts, id, user)
    case None =>
    case Some(k) =>
      WithoutWellFormed(db.contacts, k, db.nextContact, db.clock, db.users);
      WithoutKeeps(db.contacts, k);
      Deals.DetachKeeps(db.deals, {id}, {}, Ids(db.contacts), Ids(db.companies), db.nextDeal, db.clock, db.users);
      assert Ids(db.companies) - {} == Ids(db.companies);
  }
}
