/** The store behind the route handlers: the tables of the schema held in one
    object whose methods write to them as the handlers' statements do. Each
    method keeps the schema (Valid) and leaves exactly the reply and tables
    that the handler's function on the database describes. */
module Store {
  import opened Wrappers
  import opened Json
  import opened Table
  import opened Registry
  import Companies
  import Contacts
  import Deals
  import opened Database
  import opened FieldStore
  import opened CompanyStore
  import opened ContactStore
  import opened DealStore

  class Crm {
    /** The ids of the users table. */
    var users: set<nat>
    var companies: seq<Row<Companies.Company>>
    var contacts: seq<Row<Contacts.Contact>>
    var deals: seq<Row<Deals.Deal>>
    var fields: seq<Row<FieldDef>>
    /** The next value of each table's SERIAL sequence. */
    var nextUser: nat
    var nextCompany: nat
    var nextContact: nat
    var nextDeal: nat
    var nextField: nat
    /** The creation stamp of the next inserted row. */
    var clock: nat

    /** The tables as a value. */
    function State(): Tables
      reads this
    {
      Tables(users, nextUser, clock, companies, nextCompany, contacts, nextContact, deals, nextDeal, fields, nextField)
    }

    ghost predicate Valid()
      reads this
    {
      Schema(State())
    }

    constructor ()
      ensures Valid() && State() == Empty()
    {
      users, companies, contacts, deals, fields := {}, [], [], [], [];
      nextUser, nextCompany, nextContact, nextDeal, nextField, clock := 1, 1, 1, 1, 1, 0;
    }

    /** The users row a sign-up inserts. */
    method AddUser() returns (u: nat)
      requires Valid()
      modifies this
      ensures Valid()
      ensures (u, State()) == Database.AddUser(old(State()))
    {
      u := nextUser;
      users := users + {u};
      nextUser := nextUser + 1;
    }

    /** Deleting a user, with the cascades and detaches of the schema. */
    method DeleteUser(u: nat)
      requires Valid()
      modifies this
      ensures Valid()
      ensures State() == WithoutUser(old(State()), u)
    {
      ghost var r := WithoutUser(State(), u);
      WithoutUserKeeps(State(), u);
      var goneCompanies, goneContacts := OwnedIds(companies, u), OwnedIds(contacts, u);
      fields := Disown(fields, u);
      deals := Deals.Detach(Disown(deals, u), goneContacts, goneCompanies);
      contacts := Contacts.DetachCompanies(Disown(contacts, u), goneCompanies);
      companies := Disown(companies, u);
      users := users - {u};
      assert State() == r;
    }

    /** `POST /custom-fields`. */
    method DefineField(user: nat, entityType: Arg, fieldName: Arg, fieldType: Arg) returns (reply: Reply<Row<FieldDef>>)
      requires Valid()
      modifies this
      ensures Valid()
      ensures Outcome(reply, State()) == PostCustomField(old(State()), user, entityType, fieldName, fieldType)
    {
      ghost var o := PostCustomField(State(), user, entityType, fieldName, fieldType);
      PostCustomFieldKeeps(State(), user, entityType, fieldName, fieldType);
      match Check(entityType, fieldName, fieldType)
      case Reject(e) =>
        reply := BadRequest(e);
        assert Outcome(reply, State()) == o;
      case Crash(e) =>
        reply := Failed(e);
        assert Outcome(reply, State()) == o;
      case Accept(d) =>
        var order := NextOrder(fields, user, d.entityType);
        var id := nextField;
        nextField := nextField + 1;
        if Clash(fields, user, d.entityType, d.slug) {
          reply := BadRequest(DuplicateField);
          assert Outcome(reply, State()) == o;
        } else if user !in users {
          reply := Failed(ForeignKeyViolation);
          assert Outcome(reply, State()) == o;
        } else {
          var row := Row(id, user, clock, FieldDef(d.entityType, d.fieldName, d.slug, d.fieldType, order));
          fields := fields + [row];
          clock := clock + 1;
          reply := Created(row);
          assert Outcome(reply, State()) == o;
        }
    }

    /** `DELETE /custom-fields/:id`. */
    method RemoveField(user: nat, id: nat) returns (reply: Reply<()>)
      requires Valid()
      modifies this
      ensures Valid()
      ensures Outcome(reply, State()) == DeleteCustomField(old(State()), user, id)
    {
      DeleteCustomFieldKeeps(State(), user, id);
      match Find(fields, id, user)
      case None =>
        reply := NotFound(FieldNotFound);
      case Some(k) =>
        fields := Without(fields, k);
        reply := NoContent;
    }

    /** `POST /companies`. */
    method CreateCompany(user: nat, name: Arg, website: Arg, bag: BagArg) returns (reply: Reply<Shown<Row<Companies.Company>>>)
      requires Valid()
      modifies this
      ensures Valid()
      ensures Outcome(reply, State()) == PostCompany(old(State()), user, name, website, bag)
    {
      PostCompanyKeeps(State(), user, name, website, bag);
      if !Supplied(name) {
        reply := BadRequest(Companies.NameRequired);
        return;
      }
      var cf := if bag.Object? then bag.fields else map[];
      var row := Row(nextCompany, user, clock, Companies.Company(name.v, OrNull(website), Bag(cf)));
      nextCompany := nextCompany + 1;
      if user !in users {
        reply := Failed(ForeignKeyViolation);
        return;
      }
      companies := companies + [row];
      clock := clock + 1;
      reply := Created(Shown(row, cf));
    }

    /** `PUT /companies/:id`: the supplied columns are written one by one. */
    method UpdateCompany(user: nat, id: nat, name: Arg, website: Arg, bag: BagArg) returns (reply: Reply<Shown<Row<Companies.Company>>>)
      requires Valid()
      modifies this
      ensures Valid()
      ensures Outcome(reply, State()) == PutCompany(old(State()), user, id, name, website, bag)
    {
      PutCompanyKeeps(State(), user, id, name, website, bag);
      var found := Find(companies, id, user);
      if found.None? {
        reply := NotFound(Companies.CompanyNotFound);
        return;
      }
      var k := found.value;
      if name == Given(Null) {
        reply := Failed(NotNullViolation);
        return;
      }
      var data := companies[k].data;
      if name.Given? { data := data.(name := name.v); }
      if website.Given? { data := data.(website := website.v); }
      if IsObjectType(bag) { data := data.(customFields := if bag.Object? then Bag(bag.fields) else NullBag); }
      companies := companies[k := companies[k].(data := data)];
      reply := Ok(Shown(companies[k], Show(data.customFields)));
    }

    /** `DELETE /companies/:id`, with `ON DELETE SET NULL` on contacts and deals. */
    method RemoveCompany(user: nat, id: nat) returns (reply: Reply<()>)
      requires Valid()
      modifies this
      ensures Valid()
      ensures Outcome(reply, State()) == DeleteCompany(old(State()), user, id)
    {
      DeleteCompanyKeeps(State(), user, id);
      match Find(companies, id, user)
      case None =>
        reply := NotFound(Companies.CompanyNotFound);
      case Some(k) =>
        companies := Without(companies, k);
        contacts := Contacts.DetachCompanies(contacts, {id});
        deals := Deals.Detach(deals, {}, {id});
        reply := NoContent;
    }

    /** `POST /contacts`. */
    method CreateContact(user: nat, name: Arg, email: Arg, phone: Arg, company: Arg, bag: BagArg)
      returns (reply: Reply<Shown<Row<Contacts.Contact>>>)
      requires Valid()
      modifies this
      ensures Valid()
      ensures Outcome(reply, State()) == PostContact(old(State()), user, name, email, phone, company, bag)
    {
      PostContactKeeps(State(), user, name, email, phone, company, bag);
      if !Supplied(name) {
        reply := BadRequest(Companies.NameRequired);
        return;
      }
      var link := Reference(OrNull(company), Ids(companies));
      if link == Crash(InvalidInteger) {
        reply := Failed(InvalidInteger);
        return;
      }
      var id := nextContact;
      nextContact := nextContact + 1;
      if !link.Accept? {
        reply := Failed(link.error);
        return;
      }
      if user !in users {
        reply := Failed(ForeignKeyViolation);
        return;
      }
      var cf := if bag.Object? then bag.fields else map[];
      var row := Row(id, user, clock, Contacts.Contact(link.value, name.v, OrNull(email), OrNull(phone), Bag(cf)));
      contacts := contacts + [row];
      clock := clock + 1;
      reply := Created(Shown(row, cf));
    }

    /** `PUT /contacts/:id`: the supplied columns are written one by one. */
    method UpdateContact(user: nat, id: nat, name: Arg, email: Arg, phone: Arg, company: Arg, bag: BagArg)
      returns (reply: Reply<Shown<Row<Contacts.Contact>>>)
      requires Valid()
      modifies this
      ensures Valid()
      ensures Outcome(reply, State()) == PutContact(old(State()), user, id, name, email, phone, company, bag)
    {
      PutContactKeeps(State(), user, id, name, email, phone, company, bag);
      if company.Given? && !IsInteger(company.v) {
        reply := Failed(InvalidInteger);
        return;
      }
      var found := Find(contacts, id, user);
      if found.None? {
        reply := NotFound(Contacts.ContactNotFound);
        return;
      }
      var k := found.value;
      if name == Given(Null) {
        reply := Failed(NotNullViolation);
        return;
      }
      var data := contacts[k].data;
      if name.Given? { data := data.(name := name.v); }
      if email.Given? { data := data.(email := email.v); }
      if phone.Given? { data := data.(phone := phone.v); }
      if company.Given? {
        var link := Reference(company.v, Ids(companies));
        if !link.Accept? {
          reply := Failed(link.error);
          return;
        }
        data := data.(companyId := link.value);
      }
      if IsObjectType(bag) { data := data.(customFields := if bag.Object? then Bag(bag.fields) else NullBag); }
      contacts := contacts[k := contacts[k].(data := data)];
      reply := Ok(Shown(contacts[k], Show(data.customFields)));
    }

    /** `DELETE /contacts/:id`, with `ON DELETE SET NULL` on deals. */
    method RemoveContact(user: nat, id: nat) returns (reply: Reply<()>)
      requires Valid()
      modifies this
      ensures Valid()
      ensures Outcome(reply, State()) == DeleteContact(old(State()), user, id)
    {
      DeleteContactKeeps(State(), user, id);
      match Find(contacts, id, user)
      case None =>
        reply := NotFound(Contacts.ContactNotFound);
      case Some(k) =>
        contacts := Without(contacts, k);
        deals := Deals.Detach(deals, {id}, {});
        reply := NoContent;
    }

    /** `POST /deals`. */
    method CreateDeal(user: nat, title: Arg, value: Arg, stage: Arg, contact: Arg, company: Arg) returns (reply: Reply<Row<Deals.Deal>>)
      requires Valid()
      modifies this
      ensures Valid()
      ensures Outcome(reply, State()) == PostDeal(old(State()), user, title, value, stage, contact, company)
    {
      PostDealKeeps(State(), user, title, value, stage, contact, company);
      if !Supplied(title) {
        reply := BadRequest(Deals.TitleRequired);
        return;
      }
      var contactLink := Reference(OrNull(contact), Ids(contacts));
      var companyLink := Reference(OrNull(company), Ids(companies));
      if contactLink == Crash(InvalidInteger) || companyLink == Crash(InvalidInteger) {
        reply := Failed(InvalidInteger);
        return;
      }
      var id := nextDeal;
      nextDeal := nextDeal + 1;
      if !contactLink.Accept? || !companyLink.Accept? {
        reply := Failed(if !contactLink.Accept? then contactLink.error else companyLink.error);
        return;
      }
      if user !in users {
        reply := Failed(ForeignKeyViolation);
        return;
      }
      var row := Row(id, user, clock, Deals.Deal(contactLink.value, companyLink.value, title.v,
        Or(value, Deals.DefaultValue), Or(stage, Deals.DefaultStage)));
      deals := deals + [row];
      clock := clock + 1;
      reply := Created(row);
    }

    /** `PUT /deals/:id`: one UPDATE in which each column takes the COALESCE of
        its parameter and its current value. */
    method UpdateDeal(user: nat, id: nat, title: Arg, value: Arg, stage: Arg, contact: Arg, company: Arg) returns (reply: Reply<Row<Deals.Deal>>)
      requires Valid()
      modifies this
      ensures Valid()
      ensures Outcome(reply, State()) == PutDeal(old(State()), user, id, title, value, stage, contact, company)
    {
      PutDealKeeps(State(), user, id, title, value, stage, contact, company);
      if Unbindable(contact) || Unbindable(company) {
        reply := Failed(InvalidInteger);
        return;
      }
      var found := Find(deals, id, user);
      if found.None? {
        reply := NotFound(Deals.DealNotFound);
        return;
      }
      var k := found.value;
      match Deals.Patch(deals[k].data, title, value, stage, contact, company, Ids(contacts), Ids(companies))
      case Reject(e) =>
        reply := Failed(e);
      case Crash(e) =>
        reply := Failed(e);
      case Accept(deal) =>
        deals := Replace(deals, k, deal);
        reply := Ok(deals[k]);
    }

    /** `DELETE /deals/:id`. */
    method RemoveDeal(user: nat, id: nat) returns (reply: Reply<()>)
      requires Valid()
      modifies this
      ensures Valid()
      ensures Outcome(reply, State()) == DeleteDeal(old(State()), user, id)
    {
      DeleteDealKeeps(State(), user, id);
      match Find(deals, id, user)
      case None =>
        reply := NotFound(Deals.DealNotFound);
      case Some(k) =>
        deals := Without(deals, k);
        reply := NoContent;
    }
  }
}
