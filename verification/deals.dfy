/** The deals routes (deals.js) as functions on values: the defaults of a
    create, the COALESCE update, the detaching of deleted contacts and
    companies, and what the listing shows. */
module Deals {
  import opened Wrappers
  import opened Json
  import opened Table
  import opened Companies
  import opened Contacts
  import Decimal

  const TitleRequired := "Title is required"
  const DealNotFound := "Deal not found"
  /** What a create stores for a falsy value and a falsy stage. */
  const DefaultValue := Num(0)
  const DefaultStage := Str("lead")

  /** The columns of a deals row besides id, user_id and the stamps. The value
      (DECIMAL(12, 2)) and the stage are kept as the request gave them. */
  datatype Deal = Deal(contactId: Option<nat>, companyId: Option<nat>, title: Value, value: Value, stage: Value)

  /** A row of `GET /deals`: the deal with the joined `contact_name` and `company_name`. */
  datatype DealView = DealView(row: Row<Deal>, contactName: Value, companyName: Value)

  /** Whether an insert or update naming these two references fails, and how:
      a value that is not an integer fails when the parameters are bound,
      before anything else; a reference to no row fails the foreign key. */
  function Links2(a: Checked<Option<nat>>, b: Checked<Option<nat>>): (c: Checked<(Option<nat>, Option<nat>)>)
    ensures !c.Reject? || a.Reject? || b.Reject?
    ensures c.Accept? <==> a.Accept? && b.Accept?
    ensures c.Accept? ==> c.value == (a.value, b.value)
    ensures c == Crash(InvalidInteger) <==> a == Crash(InvalidInteger) || b == Crash(InvalidInteger)
  {
    if a == Crash(InvalidInteger) || b == Crash(InvalidInteger) then Crash(InvalidInteger)
    else if !a.Accept? then (if a.Reject? then Reject(a.error) else Crash(a.error))
    else if !b.Accept? then (if b.Reject? then Reject(b.error) else Crash(b.error))
    else Accept((a.value, b.value))
  }

  /** `POST /deals`: a falsy title is refused; a falsy value becomes 0, a falsy
      stage `lead` (any other stage is stored as given), a falsy contact_id or
      company_id null; a truthy one must name an existing row (of any tenant). */
  function Fresh(title: Arg, value: Arg, stage: Arg, contact: Arg, company: Arg, contacts: set<nat>, companies: set<nat>): (c: Checked<Deal>)
    ensures c.Reject? <==> !Supplied(title)
    ensures c.Reject? ==> c.error == TitleRequired
    ensures c.Crash? <==>
      Supplied(title) && ((Supplied(contact) && Reference(contact.v, contacts).Crash?) || (Supplied(company) && Reference(company.v, companies).Crash?))
    ensures c.Accept? ==> Truthy(c.value.title) && c.value.title == title.v
    ensures c.Accept? ==> c.value.value == (if Supplied(value) then value.v else DefaultValue)
    ensures c.Accept? ==> c.value.stage == (if Supplied(stage) then stage.v else DefaultStage)
    ensures c.Accept? ==> (c.value.contactId.None? <==> !Supplied(contact)) && Links(c.value.contactId, contacts)
    ensures c.Accept? ==> (c.value.companyId.None? <==> !Supplied(company)) && Links(c.value.companyId, companies)
    ensures c.Accept? ==> c.value.contactId == (if Supplied(contact) then RefId(contact.v) else None)
    ensures c.Accept? ==> c.value.companyId == (if Supplied(company) then RefId(company.v) else None)
  {
    if !Supplied(title) then Reject(TitleRequired)
    else match Links2(Reference(OrNull(contact), contacts), Reference(OrNull(company), companies))
      case Accept(links) => Accept(Deal(links.0, links.1, title.v, Or(value, DefaultValue), Or(stage, DefaultStage)))
      case Reject(e) => Reject(e)
      case Crash(e) => Crash(e)
  }

  /** `COALESCE($n, column)`: an omitted field reaches the database as null, and
      null keeps the column's value. */
  predicate Replaces(a: Arg)
  {
    a.Given? && a.v != Null
  }

  /** Definition of SQL's `COALESCE($n, column)` for a plain column: the given
      value when it is not null, otherwise the stored one. */
  function Coalesce(a: Arg, prev: Value): (v: Value)
    ensures Replaces(a) ==> v == a.v
    ensures !Replaces(a) ==> v == prev
  {
    if Replaces(a) then a.v else prev
  }

  /** The COALESCE of a reference column: a non-null value must name a row. */
  function CoalesceLink(a: Arg, prev: Option<nat>, ids: set<nat>): (c: Checked<Option<nat>>)
    ensures !c.Reject?
    ensures !Replaces(a) ==> c == Accept(prev)
    ensures Replaces(a) && c.Accept? ==> c.value.Some? && c.value.value in ids
    ensures Replaces(a) && c.Accept? ==> c.value == RefId(a.v)
  {
    if Replaces(a) then Reference(a.v, ids) else Accept(prev)
  }

  /** `c.name as contact_name` through the join as written: the name of the
      linked contact, whoever owns it, or null. */
  function ContactNameAsWritten(contacts: seq<Row<Contact>>, link: Option<nat>): Value
  {
    match JoinAsWritten(contacts, link)
    case None => Null
    case Some(c) => c.data.name
  }

  /** `c.name as contact_name` through the join kept to the caller's contacts. */
  function ContactName(contacts: seq<Row<Contact>>, link: Option<nat>, user: nat): Value
  {
    match Join(contacts, link, user)
    case None => Null
    case Some(c) => c.data.name
  }

  /** `PUT /deals/:id` applied to the caller's row: each field is replaced only
      by a non-null value, so null or an omitted field keeps the old value and
      a link, once set, cannot be cleared by an update. */
  function Patch(prev: Deal, title: Arg, value: Arg, stage: Arg, contact: Arg, company: Arg, contacts: set<nat>, companies: set<nat>): (c: Checked<Deal>)
    ensures !c.Reject?
    ensures c.Crash? <==>
      (Replaces(contact) && Reference(contact.v, contacts).Crash?) || (Replaces(company) && Reference(company.v, companies).Crash?)
    ensures c.Accept? ==> c.value.title == Coalesce(title, prev.title) && (c.value.title != Null || prev.title == Null)
    ensures c.Accept? ==> c.value.value == Coalesce(value, prev.value) && c.value.stage == Coalesce(stage, prev.stage)
    ensures c.Accept? && !Replaces(contact) ==> c.value.contactId == prev.contactId
    ensures c.Accept? && !Replaces(company) ==> c.value.companyId == prev.companyId
    ensures c.Accept? && Replaces(contact) ==> c.value.contactId.Some? && c.value.contactId.value in contacts
    ensures c.Accept? && Replaces(company) ==> c.value.companyId.Some? && c.value.companyId.value in companies
    ensures c.Accept? && Replaces(contact) ==> c.value.contactId == RefId(contact.v)
    ensures c.Accept? && Replaces(company) ==> c.value.companyId == RefId(company.v)
    ensures c.Accept? && prev.contactId.Some? ==> c.value.contactId.Some?
    ensures c.Accept? && prev.companyId.Some? ==> c.value.companyId.Some?
  {
    match Links2(CoalesceLink(contact, prev.contactId, contacts), CoalesceLink(company, prev.companyId, companies))
    case Accept(links) =>
      Accept(Deal(links.0, links.1, Coalesce(title, prev.title), Coalesce(value, prev.value), Coalesce(stage, prev.stage)))
    case Reject(e) => Reject(e)
    case Crash(e) => Crash(e)
  }

  /** An update whose fields are all null (or omitted) leaves the deal as it was. */
  lemma PatchNullKeeps(prev: Deal, contacts: set<nat>, companies: set<nat>)
    ensures Patch(prev, Given(Null), Given(Null), Given(Null), Given(Null), Given(Null), contacts, companies) == Accept(prev)
    ensures Patch(prev, Undefined, Undefined, Undefined, Undefined, Undefined, contacts, companies) == Accept(prev)
  {
  }

  /** Sending the same update twice leaves the deal as the first one left it. */
  lemma PatchIdempotent(prev: Deal, title: Arg, value: Arg, stage: Arg, contact: Arg, company: Arg, contacts: set<nat>, companies: set<nat>)
    requires Patch(prev, title, value, stage, contact, company, contacts, companies).Accept?
    ensures var once := Patch(prev, title, value, stage, contact, company, contacts, companies).value;
            Patch(once, title, value, stage, contact, company, contacts, companies) == Accept(once)
  {
  }

  /** Create and update read a falsy field differently: an empty stage is
      `lead` on create but is written as "" by an update, and 0 is the default
      value on create but replaces the value on update. */
  lemma FalsyAsymmetry(prev: Deal, title: Value, contacts: set<nat>, companies: set<nat>)
    requires Truthy(title)
    ensures Fresh(Given(title), Given(Num(0)), Given(Str("")), Undefined, Undefined, contacts, companies)
         == Accept(Deal(None, None, title, DefaultValue, DefaultStage))
    ensures Patch(prev, Undefined, Given(Num(0)), Given(Str("")), Undefined, Undefined, contacts, companies)
         == Accept(prev.(value := Num(0), stage := Str("")))
  {
  }

  /** `ON DELETE SET NULL` on contact_id and company_id: a deal that pointed at
      a deleted contact or company loses that link and otherwise stays as it was. */
  function Detach(t: seq<Row<Deal>>, goneContacts: set<nat>, goneCompanies: set<nat>): (r: seq<Row<Deal>>)
    ensures |r| == |t|
    ensures forall i :: 0 <= i < |t| ==>
      r[i].id == t[i].id && r[i].user == t[i].user && r[i].created == t[i].created
      && r[i].data == t[i].data.(contactId := r[i].data.contactId, companyId := r[i].data.companyId)
    ensures forall i :: 0 <= i < |t| ==>
      (r[i].data.contactId == None <==> t[i].data.contactId == None || t[i].data.contactId.value in goneContacts)
    ensures forall i :: 0 <= i < |t| ==>
      (r[i].data.companyId == None <==> t[i].data.companyId == None || t[i].data.companyId.value in goneCompanies)
    ensures forall i :: 0 <= i < |t| && r[i].data.contactId.Some? ==> r[i].data.contactId == t[i].data.contactId
    ensures forall i :: 0 <= i < |t| && r[i].data.companyId.Some? ==> r[i].data.companyId == t[i].data.companyId
  {
    seq(|t|, i requires 0 <= i < |t| =>
      var d := t[i].data;
      t[i].(data := d.(
        contactId := if d.contactId.Some? && d.contactId.value in goneContacts then None else d.contactId,
        companyId := if d.companyId.Some? && d.companyId.value in goneCompanies then None else d.companyId)))
  }

  /** What the schema keeps true of every deal: `title NOT NULL`, and both
      references name existing rows. */
  ghost predicate Consistent(t: seq<Row<Deal>>, contacts: set<nat>, companies: set<nat>)
  {
    forall r :: r in t ==> r.data.title != Null && Links(r.data.contactId, contacts) && Links(r.data.companyId, companies)
  }

  /** Detaching keeps the table well formed and its ids, and every remaining
      link then points at a row that still exists. */
  lemma DetachKeeps(t: seq<Row<Deal>>, goneContacts: set<nat>, goneCompanies: set<nat>, contacts: set<nat>, companies: set<nat>,
                    nextId: nat, clock: nat, users: set<nat>)
    requires WellFormed(t, nextId, clock, users) && Consistent(t, contacts, companies)
    ensures WellFormed(Detach(t, goneContacts, goneCompanies), nextId, clock, users)
    ensures Consistent(Detach(t, goneContacts, goneCompanies), contacts - goneContacts, companies - goneCompanies)
  {
    var d := Detach(t, goneContacts, goneCompanies);
    forall r | r in d ensures r.user in users && r.id < nextId && r.created < clock
      && r.data.title != Null && Links(r.data.contactId, contacts - goneContacts) && Links(r.data.companyId, companies - goneCompanies)
    {
      var i :| 0 <= i < |d| && d[i] == r;
      assert t[i] in t;
    }
  }

  function ViewAll(mine: seq<Row<Deal>>, contactNames: seq<Value>, companyNames: seq<Value>): (r: seq<DealView>)
    requires |contactNames| == |mine| && |companyNames| == |mine|
    ensures |r| == |mine|
    ensures forall k :: 0 <= k < |r| ==> r[k] == DealView(mine[k], contactNames[k], companyNames[k])
    ensures forall x :: x in mine ==> exists k :: 0 <= k < |r| && r[k].row == x
  {
    seq(|mine|, k requires 0 <= k < |mine| => DealView(mine[k], contactNames[k], companyNames[k]))
  }

  /** The caller's name of each deal's contact. */
  function ContactNames(mine: seq<Row<Deal>>, contacts: seq<Row<Contact>>, user: nat): (r: seq<Value>)
    ensures |r| == |mine|
    ensures forall k :: 0 <= k < |r| ==> r[k] == ContactName(contacts, mine[k].data.contactId, user)
  {
    seq(|mine|, k requires 0 <= k < |mine| => ContactName(contacts, mine[k].data.contactId, user))
  }

  /** The caller's name of each deal's company. */
  function CompanyNames(mine: seq<Row<Deal>>, companies: seq<Row<Company>>, user: nat): (r: seq<Value>)
    ensures |r| == |mine|
    ensures forall k :: 0 <= k < |r| ==> r[k] == CompanyName(companies, mine[k].data.companyId, user)
  {
    seq(|mine|, k requires 0 <= k < |mine| => CompanyName(companies, mine[k].data.companyId, user))
  }

  /** `GET /deals` as written: the caller's deals, newest first, with the names
      of the linked contact and company whoever owns them. */
  function ListingAsWritten(t: seq<Row<Deal>>, contacts: seq<Row<Contact>>, companies: seq<Row<Company>>, user: nat): (r: seq<DealView>)
    requires Ordered(t)
    ensures |r| == |Newest(t, user)|
    ensures forall i :: 0 <= i < |r| ==>
      r[i].row.user == user && r[i].row in t
      && r[i].contactName == ContactNameAsWritten(contacts, r[i].row.data.contactId)
      && r[i].companyName == CompanyNameAsWritten(companies, r[i].row.data.companyId)
    ensures forall i, j :: 0 <= i < j < |r| ==> r[i].row.created > r[j].row.created
    ensures forall i :: 0 <= i < |t| && t[i].user == user ==> exists k :: 0 <= k < |r| && r[k].row == t[i]
  {
    var mine := Newest(t, user);
    NewestFirst(t, user);
    ViewAll(mine,
      seq(|mine|, k requires 0 <= k < |mine| => ContactNameAsWritten(contacts, mine[k].data.contactId)),
      seq(|mine|, k requires 0 <= k < |mine| => CompanyNameAsWritten(companies, mine[k].data.companyId)))
  }

  /** `GET /deals` with both joins kept to the caller's rows: the caller's
      deals, newest first, each with the names of its own linked contact and
      company, or null. */
  function Listing(t: seq<Row<Deal>>, contacts: seq<Row<Contact>>, companies: seq<Row<Company>>, user: nat): (r: seq<DealView>)
    requires Ordered(t)
    ensures |r| == |Newest(t, user)|
    ensures forall i :: 0 <= i < |r| ==>
      r[i].row.user == user && r[i].row in t
      && r[i].contactName == ContactName(contacts, r[i].row.data.contactId, user)
      && r[i].companyName == CompanyName(companies, r[i].row.data.companyId, user)
    ensures forall i, j :: 0 <= i < j < |r| ==> r[i].row.created > r[j].row.created
    ensures forall i :: 0 <= i < |t| && t[i].user == user ==> exists k :: 0 <= k < |r| && r[k].row == t[i]
  {
    var mine := Newest(t, user);
    NewestFirst(t, user);
    var r := ViewAll(mine, ContactNames(mine, contacts, user), CompanyNames(mine, companies, user));
    r
  }

  /** The leak in the listing as written: tenant 1 creates a deal whose
      contact_id is the id of tenant 2's contact, which the foreign key
      accepts, and then sees that contact's name. The corrected listing shows null. */
  lemma CrossTenantLeak()
    ensures var bob := Row(1, 2, 0, Contact(None, Str("Bob"), Null, Null, Bag(map[])));
            var c := Fresh(Given(Str("Renewal")), Undefined, Undefined, Given(Str("1")), Undefined, Ids([bob]), {});
            c.Accept? && c.value.contactId == Some(1)
            && ListingAsWritten([Row(1, 1, 1, c.value)], [bob], [], 1)[0].contactName == Str("Bob")
            && Listing([Row(1, 1, 1, c.value)], [bob], [], 1)[0].contactName == Null
  {
    var bob := Row(1, 2, 0, Contact(None, Str("Bob"), Null, Null, Bag(map[])));
    assert [bob][0].id == 1;
    assert 1 in Ids([bob]);
    assert Decimal.ParseNat("1") == Some(1) by {
      Decimal.ParseDigits(1);
      assert Decimal.Digits(1) == "1";
    }
    var c := Fresh(Given(Str("Renewal")), Undefined, Undefined, Given(Str("1")), Undefined, Ids([bob]), {});
    assert c.value.contactId == Some(1);
    var t := [Row(1, 1, 1, c.value)];
    assert Newest(t, 1) == t;
  }
}
