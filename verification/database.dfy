/** The database as a value: the users table and the four tenant tables of
    the schema (db.js), the constraints the schema enforces, and what the
    deletion of a user does to them. */
module Database {
  import opened Wrappers
  import opened Json
  import opened Table
  import opened Registry
  import opened Companies
  import opened Contacts
  import opened Deals

  /** The tables, with the next value of each SERIAL sequence and the creation
      stamp of the next inserted row. */
  datatype Tables = Tables(
    users: set<nat>, nextUser: nat, clock: nat,
    companies: seq<Row<Company>>, nextCompany: nat,
    contacts: seq<Row<Contact>>, nextContact: nat,
    deals: seq<Row<Deal>>, nextDeal: nat,
    fields: seq<Row<FieldDef>>, nextField: nat)

  /** The reply of a handler and the tables it leaves. */
  datatype Outcome<+T> = Outcome(reply: Reply<T>, db: Tables)

  /** The constraints of the schema: serial ids, owners that exist, NOT NULL
      names and titles, references to existing rows, and
      `UNIQUE(user_id, entity_type, slug)`. */
  ghost predicate Schema(db: Tables)
  {
    && 0 < db.nextUser && (forall u :: u in db.users ==> 0 < u < db.nextUser)
    && WellFormed(db.companies, db.nextCompany, db.clock, db.users)
    && (forall r :: r in db.companies ==> r.data.name != Null)
    && WellFormed(db.contacts, db.nextContact, db.clock, db.users)
    && Contacts.Consistent(db.contacts, Ids(db.companies))
    && WellFormed(db.deals, db.nextDeal, db.clock, db.users)
    && Deals.Consistent(db.deals, Ids(db.contacts), Ids(db.companies))
    && WellFormed(db.fields, db.nextField, db.clock, db.users)
    && Unique(db.fields) && Sound(db.fields)
  }

  /** The empty database: every sequence starts at 1. */
  function Empty(): (db: Tables)
    ensures Schema(db)
  {
    Tables({}, 1, 0, [], 1, [], 1, [], 1, [], 1)
  }

  /** Drawing serial values, as an insert that fails after it started does,
      keeps the schema. */
  lemma DrawKeeps(db: Tables, db': Tables)
    requires Schema(db)
    requires db' == db.(nextCompany := db'.nextCompany, nextContact := db'.nextContact,
                        nextDeal := db'.nextDeal, nextField := db'.nextField)
    requires db.nextCompany <= db'.nextCompany && db.nextContact <= db'.nextContact
    requires db.nextDeal <= db'.nextDeal && db.nextField <= db'.nextField
    ensures Schema(db')
  {
  }

  /** A sign-up's `INSERT INTO users`: the next user id. */
  function AddUser(db: Tables): (o: (nat, Tables))
    requires Schema(db)
    ensures o.0 !in db.users && o.1 == db.(users := db.users + {o.0}, nextUser := o.1.nextUser)
    ensures Schema(o.1)
  {
    (db.nextUser, db.(users := db.users + {db.nextUser}, nextUser := db.nextUser + 1))
  }

  /** Deleting a user: `ON DELETE CASCADE` removes the user's companies,
      contacts, deals and custom fields, and `ON DELETE SET NULL` then clears
      every remaining reference to the removed companies and contacts, whoever
      owns the referring row. */
  function WithoutUser(db: Tables, u: nat): (r: Tables)
    requires Schema(db)
    ensures r.users == db.users - {u}
    ensures r == db.(users := r.users, companies := r.companies, contacts := r.contacts, deals := r.deals, fields := r.fields)
  {
    var goneCompanies, goneContacts := OwnedIds(db.companies, u), OwnedIds(db.contacts, u);
    db.(users := db.users - {u},
        companies := Disown(db.companies, u),
        contacts := DetachCompanies(Disown(db.contacts, u), goneCompanies),
        deals := Detach(Disown(db.deals, u), goneContacts, goneCompanies),
        fields := Disown(db.fields, u))
  }

  /** What deleting a user leaves: the other users' rows, in order, where the
      surviving contacts and deals differ from before only in their links to the
      removed companies and contacts, which are null; so none of the user's rows
      and no reference to a removed row remains. */
  lemma WithoutUserRemoves(db: Tables, u: nat)
    requires Schema(db)
    ensures var r := WithoutUser(db, u);
      && r.companies == Disown(db.companies, u) && r.fields == Disown(db.fields, u)
      && r.contacts == DetachCompanies(Disown(db.contacts, u), OwnedIds(db.companies, u))
      && r.deals == Detach(Disown(db.deals, u), OwnedIds(db.contacts, u), OwnedIds(db.companies, u))
    ensures var r := WithoutUser(db, u);
      && (forall x :: x in r.companies <==> x in db.companies && x.user != u)
      && (forall x :: x in r.fields <==> x in db.fields && x.user != u)
      && (forall i :: 0 <= i < |r.contacts| ==> r.contacts[i].user != u)
      && (forall i :: 0 <= i < |r.deals| ==> r.deals[i].user != u)
      && |r.contacts| == |Disown(db.contacts, u)| && |r.deals| == |Disown(db.deals, u)|
    ensures var r := WithoutUser(db, u);
      forall i :: 0 <= i < |r.contacts| && r.contacts[i].data.companyId.Some? ==>
        r.contacts[i].data.companyId.value !in OwnedIds(db.companies, u)
    ensures var r := WithoutUser(db, u);
      forall i :: 0 <= i < |r.deals| ==>
        && (r.deals[i].data.companyId.Some? ==> r.deals[i].data.companyId.value !in OwnedIds(db.companies, u))
        && (r.deals[i].data.contactId.Some? ==> r.deals[i].data.contactId.value !in OwnedIds(db.contacts, u))
  {
  }

  /** Deleting a user, with its cascades and detaches, keeps the schema. */
  lemma WithoutUserKeeps(db: Tables, u: nat)
    requires Schema(db)
    ensures Schema(WithoutUser(db, u))
  {
    var goneCompanies, goneContacts := OwnedIds(db.companies, u), OwnedIds(db.contacts, u);
    var users := db.users - {u};
    DisownWellFormed(db.companies, u, db.nextCompany, db.clock, db.users);
    DisownWellFormed(db.contacts, u, db.nextContact, db.clock, db.users);
    DisownWellFormed(db.deals, u, db.nextDeal, db.clock, db.users);
    DisownWellFormed(db.fields, u, db.nextField, db.clock, db.users);
    DisownIds(db.companies, u);
    DisownIds(db.contacts, u);
    DetachCompaniesKeeps(Disown(db.contacts, u), goneCompanies, Ids(db.companies), db.nextContact, db.clock, users);
    DetachKeeps(Disown(db.deals, u), goneContacts, goneCompanies, Ids(db.contacts), Ids(db.companies), db.nextDeal, db.clock, users);
  }
}
