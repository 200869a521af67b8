/** The companies handlers of companies.js on the database: what
    `POST /companies`, `PUT /companies/:id` and `DELETE /companies/:id` reply
    and leave. */
module CompanyStore {
  import opened Wrappers
  import opened Json
  import opened Table
  import opened Companies
  import Contacts
  import Deals
  import opened Database

  /** `POST /companies`: a refused request changes nothing; otherwise the
      INSERT draws the next id and adds the row unless the owner no longer
      exists. Only the companies table changes. */
  function PostCompany(db: Tables, user: nat, name: Arg, website: Arg, bag: BagArg): (o: Outcome<Shown<Row<Company>>>)
    ensures o.db == db.(companies := o.db.companies, nextCompany := o.db.nextCompany, clock := o.db.clock)
    ensures !Supplied(name) ==> o == Outcome(BadRequest(NameRequired), db)
    ensures Supplied(name) ==> o.db.nextCompany == db.nextCompany + 1
    ensures o.reply.Created? <==> Supplied(name) && user in db.users
    ensures Supplied(name) && user !in db.users ==> o.reply == Failed(ForeignKeyViolation)
    ensures !o.reply.Created? ==> o.db.companies == db.companies && o.db.clock == db.clock
    ensures o.reply.Created? ==>
      var row := o.reply.body.row;
      && o.db.companies == db.companies + [row] && o.db.clock == db.clock + 1
      && row.id == db.nextCompany && row.user == user && row.created == db.clock
      && Fresh(name, website, bag) == Accept(row.data)
      && o.reply.body.customFields == CreateBag(bag)
  {
    match Fresh(name, website, bag)
    case Reject(e) => Outcome(BadRequest(e), db)
    case Crash(e) => Outcome(Failed(e), db)
    case Accept(company) =>
      var drawn := db.(nextCompany := db.nextCompany + 1);
      if user !in db.users then Outcome(Failed(ForeignKeyViolation), drawn)
      else
        var row := Row(db.nextCompany, user, db.clock, company);
        Outcome(Created(Shown(row, Show(company.customFields))), drawn.(companies := db.companies + [row], clock := db.clock + 1))
  }

  lemma PostCompanyKeeps(db: Tables, user: nat, name: Arg, website: Arg, bag: BagArg)
    requires Schema(db)
    ensures Schema(PostCompany(db, user, name, website, bag).db)
  {
    var o := PostCompany(db, user, name, website, bag);
    if o.reply.Created? {
      AppendWellFormed(db.companies, o.reply.body.row, db.users);
      IdsAppend(db.companies, o.reply.body.row);
    } else if Supplied(name) {
      DrawKeeps(db, o.db);
    }
  }

  /** `PUT /companies/:id`: without a company of the caller with that id the
      reply is 404 and nothing changes; a null name fails the NOT NULL
      constraint; otherwise that one row takes the patched columns. */
  function PutCompany(db: Tables, user: nat, id: nat, name: Arg, website: Arg, bag: BagArg): (o: Outcome<Shown<Row<Company>>>)
    ensures o.db == db.(companies := o.db.companies)
    ensures id !in OwnedIds(db.companies, user) ==> o == Outcome(NotFound(CompanyNotFound), db)
    ensures id in OwnedIds(db.companies, user) && name == Given(Null) ==> o == Outcome(Failed(NotNullViolation), db)
    ensures o.reply.Ok? <==> id in OwnedIds(db.companies, user) && name != Given(Null)
    ensures o.reply.Ok? ==>
      var k := Find(db.companies, id, user).value;
      && Patch(db.companies[k].data, name, website, bag) == Accept(o.reply.body.row.data)
      && o.db.companies == Replace(db.companies, k, o.reply.body.row.data)
      && o.reply.body.row == o.db.companies[k] && o.reply.body.row.id == id && o.reply.body.row.user == user
      && o.reply.body.customFields == Show(o.reply.body.row.data.customFields)
  {
    FindOwned(db.companies, id, user);
    match Find(db.companies, id, user)
    case None => Outcome(NotFound(CompanyNotFound), db)
    case Some(k) =>
      match Patch(db.companies[k].data, name, website, bag)
      case Reject(e) => Outcome(Failed(e), db)
      case Crash(e) => Outcome(Failed(e), db)
      case Accept(company) =>
        var t := Replace(db.companies, k, company);
        Outcome(Ok(Shown(t[k], Show(company.customFields))), db.(companies := t))
  }

  lemma PutCompanyKeeps(db: Tables, user: nat, id: nat, name: Arg, website: Arg, bag: BagArg)
    requires Schema(db)
    ensures Schema(PutCompany(db, user, id, name, website, bag).db)
  {
    var o := PutCompany(db, user, id, name, website, bag);
    if o.reply.Ok? {
      var k := Find(db.companies, id, user).value;
      assert db.companies[k] in db.companies;
      ReplaceWellFormed(db.companies, k, o.reply.body.row.data, db.nextCompany, db.clock, db.users);
      ReplaceKeeps(db.companies, k, o.reply.body.row.data);
    }
  }

  /** `DELETE /companies/:id`: the caller's company with that id goes, every
      other company stays, and `ON DELETE SET NULL` clears company_id on the
      contacts and deals that named it, which stay; without such a company the
      reply is 404 and nothing changes. */
  function DeleteCompany(db: Tables, user: nat, id: nat): (o: Outcome<()>)
    requires Schema(db)
    ensures o.db == db.(companies := o.db.companies, contacts := o.db.contacts, deals := o.db.deals)
    ensures o.reply == NoContent <==> id in OwnedIds(db.companies, user)
    ensures o.reply != NoContent ==> o == Outcome(NotFound(CompanyNotFound), db)
    ensures o.reply == NoContent ==>
      && (forall x :: x in o.db.companies <==> x in db.companies && x.id != id)
      && o.db.contacts == Contacts.DetachCompanies(db.contacts, {id})
      && o.db.deals == Deals.Detach(db.deals, {}, {id})
  {
    FindOwned(db.companies, id, user);
    match Find(db.companies, id, user)
    case None => Outcome(NotFound(CompanyNotFound), db)
    case Some(k) =>
      WithoutExactly(db.companies, k);
      Outcome(NoContent, db.(companies := Without(db.companies, k),
                             contacts := Contacts.DetachCompanies(db.contacts, {id}),
                             deals := Deals.Detach(db.deals, {}, {id})))
  }

  lemma DeleteCompanyKeeps(db: Tables, user: nat, id: nat)
    requires Schema(db)
    ensures Schema(DeleteCompany(db, user, id).db)
  {
    match Find(db.companies, id, user)
    case None =>
    case Some(k) =>
      WithoutWellFormed(db.companies, k, db.nextCompany, db.clock, db.users);
      WithoutKeeps(db.companies, k);
      Contacts.DetachCompaniesKeeps(db.contacts, {id}, Ids(db.companies), db.nextContact, db.clock, db.users);
      Deals.DetachKeeps(db.deals, {}, {id}, Ids(db.contacts), Ids(db.companies), db.nextDeal, db.clock, db.users);
      assert Ids(db.contacts) - {} == Ids(db.contacts);
  }
}
