/** The contacts routes (contacts.js) as functions on values: what a create
    and an update write, how `ON DELETE SET NULL` detaches contacts from a
    deleted company, and what the listing shows, including the company name
    it joins in. */
module Contacts {
  import opened Wrappers
  import opened Json
  import opened Table
  import opened Companies

  const ContactNotFound := "Contact not found"

  /** The columns of a contacts row besides id, user_id and the stamps. */
  datatype Contact = Contact(companyId: Option<nat>, name: Value, email: Value, phone: Value, customFields: StoredBag)

  /** A row of `GET /contacts`: the contact, the joined `company_name` and the
      bag shown as `{}` when null. */
  datatype ContactView = ContactView(row: Row<Contact>, companyName: Value, customFields: map<string, Value>)

  /** `POST /contacts`: a falsy name is refused; a falsy email, phone or
      company_id is stored as null; a truthy company_id must name an existing
      company (of any tenant); the bag is stored when it is an object and
      replaced by `{}` otherwise. */
  function Fresh(name: Arg, email: Arg, phone: Arg, company: Arg, bag: BagArg, companies: set<nat>): (c: Checked<Contact>)
    ensures c.Reject? <==> !Supplied(name)
    ensures c.Reject? ==> c.error == NameRequired
    ensures c.Crash? <==> Supplied(name) && Supplied(company) && Reference(company.v, companies).Crash?
    ensures c.Accept? ==> Truthy(c.value.name) && c.value.name == name.v
    ensures c.Accept? ==> (c.value.email == Null <==> !Supplied(email)) && (c.value.phone == Null <==> !Supplied(phone))
    ensures c.Accept? && Supplied(email) ==> c.value.email == email.v
    ensures c.Accept? && Supplied(phone) ==> c.value.phone == phone.v
    ensures c.Accept? ==> (c.value.companyId.None? <==> !Supplied(company))
    ensures c.Accept? ==> c.value.companyId == (if Supplied(company) then RefId(company.v) else None)
    ensures c.Accept? ==> Links(c.value.companyId, companies)
    ensures c.Accept? ==> c.value.customFields == Bag(CreateBag(bag))
  {
    if !Supplied(name) then Reject(NameRequired)
    else match Reference(OrNull(company), companies)
      case Accept(link) => Accept(Contact(link, name.v, OrNull(email), OrNull(phone), Bag(CreateBag(bag))))
      case Reject(e) => Reject(e)
      case Crash(e) => Crash(e)
  }

  /** `PUT /contacts/:id` applied to the caller's row: each of name, email, phone
      and company_id that is not undefined is written as given, so a null
      company_id clears the link; the others keep their value. Failures come in
      the database's order: a company_id that is not an integer, then a null
      name, then a company_id naming no company. */
  function Patch(prev: Contact, name: Arg, email: Arg, phone: Arg, company: Arg, bag: BagArg, companies: set<nat>): (c: Checked<Contact>)
    ensures !c.Reject?
    ensures c.Crash? <==>
      name == Given(Null) || (company.Given? && Reference(company.v, companies).Crash?)
    ensures c.Crash? && company.Given? && !IsInteger(company.v) ==> c.error == InvalidInteger
    ensures c.Crash? && name == Given(Null) && !(company.Given? && !IsInteger(company.v)) ==> c.error == NotNullViolation
    ensures c.Crash? && name != Given(Null) && !(company.Given? && !IsInteger(company.v)) ==> c.error == ForeignKeyViolation
    ensures c.Accept? && name.Given? ==> c.value.name == name.v
    ensures c.Accept? && name.Undefined? ==> c.value.name == prev.name
    ensures c.Accept? ==> c.value.name != Null || prev.name == Null
    ensures c.Accept? && email.Given? ==> c.value.email == email.v
    ensures c.Accept? && email.Undefined? ==> c.value.email == prev.email
    ensures c.Accept? && phone.Given? ==> c.value.phone == phone.v
    ensures c.Accept? && phone.Undefined? ==> c.value.phone == prev.phone
    ensures c.Accept? && company.Undefined? ==> c.value.companyId == prev.companyId
    ensures c.Accept? && company.Given? ==> (c.value.companyId.None? <==> company.v == Null)
    ensures c.Accept? && company.Given? ==> Links(c.value.companyId, companies)
    ensures c.Accept? && company.Given? ==> c.value.companyId == RefId(company.v)
    ensures c.Accept? && IsObjectType(bag) ==> Show(c.value.customFields) == (if bag.Object? then bag.fields else map[])
    ensures c.Accept? && !IsObjectType(bag) ==> c.value.customFields == prev.customFields
  {
    var link := if company.Given? then Reference(company.v, companies) else Accept(prev.companyId);
    if link == Crash(InvalidInteger) then Crash(InvalidInteger)
    else if name == Given(Null) then Crash(NotNullViolation)
    else match link
      case Crash(e) => Crash(e)
      case Reject(e) => Reject(e)
      case Accept(id) =>
        Accept(Contact(
          id,
          if name.Given? then name.v else prev.name,
          if email.Given? then email.v else prev.email,
          if phone.Given? then phone.v else prev.phone,
          UpdateBag(bag, prev.customFields)))
  }

  /** The create refuses with 400 before anything else; an empty email stored
      by an update stays "" while a create stores it as null. */
  lemma EmptyEmailAsymmetry(prev: Contact, name: Value, companies: set<nat>)
    requires Truthy(name)
    ensures Fresh(Given(name), Given(Str("")), Undefined, Undefined, Absent, companies).value.email == Null
    ensures Patch(prev, Undefined, Given(Str("")), Undefined, Undefined, Absent, companies).value.email == Str("")
  {
  }

  /** `ON DELETE SET NULL` on company_id: a contact that pointed at one of the
      deleted companies loses the link and otherwise stays as it was. */
  function DetachCompanies(t: seq<Row<Contact>>, gone: set<nat>): (r: seq<Row<Contact>>)
    ensures |r| == |t|
    ensures forall i :: 0 <= i < |t| ==>
      r[i].id == t[i].id && r[i].user == t[i].user && r[i].created == t[i].created
      && r[i].data == t[i].data.(companyId := r[i].data.companyId)
    ensures forall i :: 0 <= i < |t| ==>
      (r[i].data.companyId == None <==> t[i].data.companyId == None || t[i].data.companyId.value in gone)
    ensures forall i :: 0 <= i < |t| && r[i].data.companyId.Some? ==> r[i].data.companyId == t[i].data.companyId
  {
    seq(|t|, i requires 0 <= i < |t| =>
      var link := t[i].data.companyId;
      t[i].(data := t[i].data.(companyId := if link.Some? && link.value in gone then None else link)))
  }

  /** What the schema keeps true of every contact: `name NOT NULL`, and
      `company_id REFERENCES companies(id)`. */
  ghost predicate Consistent(t: seq<Row<Contact>>, companies: set<nat>)
  {
    forall r :: r in t ==> r.data.name != Null && Links(r.data.companyId, companies)
  }

  /** Detaching keeps the table well formed and its ids, and every remaining
      link then points at a company that still exists. */
  lemma DetachCompaniesKeeps(t: seq<Row<Contact>>, gone: set<nat>, before: set<nat>, nextId: nat, clock: nat, users: set<nat>)
    requires WellFormed(t, nextId, clock, users) && Consistent(t, before)
    ensures WellFormed(DetachCompanies(t, gone), nextId, clock, users)
    ensures Consistent(DetachCompanies(t, gone), before - gone)
    ensures Ids(DetachCompanies(t, gone)) == Ids(t)
  {
    var d := DetachCompanies(t, gone);
    forall r | r in d ensures r.user in users && r.id < nextId && r.created < clock
      && r.data.name != Null && Links(r.data.companyId, before - gone)
    {
      var i :| 0 <= i < |d| && d[i] == r;
      assert t[i] in t;
    }
    forall x | x in Ids(t) ensures x in Ids(d) {
      var i :| 0 <= i < |t| && t[i].id == x;
      assert d[i].id == x;
    }
  }

  /** `co.name as company_name` through the join as written: the name of the
      linked company, whoever owns it, or null. */
  function CompanyNameAsWritten(companies: seq<Row<Company>>, link: Option<nat>): Value
  {
    match JoinAsWritten(companies, link)
    case None => Null
    case Some(co) => co.data.name
  }

  /** `co.name as company_name` through the join kept to the caller's companies. */
  function CompanyName(companies: seq<Row<Company>>, link: Option<nat>, user: nat): Value
  {
    match Join(companies, link, user)
    case None => Null
    case Some(co) => co.data.name
  }

  function Present(r: Row<Contact>, companyName: Value): ContactView
  {
    ContactView(r, companyName, Show(r.data.customFields))
  }

  /** The listed contacts with the company names a join gives them. */
  function ViewAll(mine: seq<Row<Contact>>, names: seq<Value>): (r: seq<ContactView>)
    requires |names| == |mine|
    ensures |r| == |mine|
    ensures forall k :: 0 <= k < |r| ==> r[k] == Present(mine[k], names[k])
    ensures forall x :: x in mine ==> exists k :: 0 <= k < |r| && r[k].row == x
  {
    seq(|mine|, k requires 0 <= k < |mine| => Present(mine[k], names[k]))
  }

  /** `GET /contacts` as written: the caller's contacts, newest first, each with
      the name of the linked company whoever owns it. */
  function ListingAsWritten(t: seq<Row<Contact>>, companies: seq<Row<Company>>, user: nat): (r: seq<ContactView>)
    requires Ordered(t)
    ensures |r| == |Newest(t, user)|
    ensures forall i :: 0 <= i < |r| ==>
      r[i].row.user == user && r[i].row in t && r[i].customFields == Show(r[i].row.data.customFields)
      && r[i].companyName == CompanyNameAsWritten(companies, r[i].row.data.companyId)
    ensures forall i, j :: 0 <= i < j < |r| ==> r[i].row.created > r[j].row.created
    ensures forall i :: 0 <= i < |t| && t[i].user == user ==> exists k :: 0 <= k < |r| && r[k].row == t[i]
  {
    var mine := Newest(t, user);
    NewestFirst(t, user);
    ViewAll(mine, seq(|mine|, k requires 0 <= k < |mine| => CompanyNameAsWritten(companies, mine[k].data.companyId)))
  }

  /** `GET /contacts` with the join kept to the caller's companies: the caller's
      contacts, newest first, each with its bag shown as `{}` when null and the
      name of the linked company when the caller owns it. */
  function Listing(t: seq<Row<Contact>>, companies: seq<Row<Company>>, user: nat): (r: seq<ContactView>)
    requires Ordered(t)
    ensures |r| == |Newest(t, user)|
    ensures forall i :: 0 <= i < |r| ==>
      r[i].row.user == user && r[i].row in t && r[i].customFields == Show(r[i].row.data.customFields)
      && r[i].companyName == CompanyName(companies, r[i].row.data.companyId, user)
    ensures forall i, j :: 0 <= i < j < |r| ==> r[i].row.created > r[j].row.created
    ensures forall i :: 0 <= i < |t| && t[i].user == user ==> exists k :: 0 <= k < |r| && r[k].row == t[i]
  {
    var mine := Newest(t, user);
    NewestFirst(t, user);
    var r := ViewAll(mine, seq(|mine|, k requires 0 <= k < |mine| => CompanyName(companies, mine[k].data.companyId, user)));
    r
  }

  /** The leak in the listing as written: tenant 1 creates a contact whose
      company_id is the id of tenant 2's company, which the foreign key accepts,
      and then sees that company's name. The corrected listing shows null. */
  lemma CrossTenantLeak()
    ensures var acme := Row(1, 2, 0, Company(Str("Acme"), Null, Bag(map[])));
            var c := Fresh(Given(Str("Ann")), Undefined, Undefined, Given(Str("1")), Absent, Ids([acme]));
            c.Accept? && c.value.companyId == Some(1)
            && ListingAsWritten([Row(1, 1, 1, c.value)], [acme], 1)[0].companyName == Str("Acme")
            && Listing([Row(1, 1, 1, c.value)], [acme], 1)[0].companyName == Null
  {
    var acme := Row(1, 2, 0, Company(Str("Acme"), Null, Bag(map[])));
    assert [acme][0].id == 1;
    assert 1 in Ids([acme]);
    assert Decimal.ParseNat("1") == Some(1) by {
      Decimal.ParseDigits(1);
      assert Decimal.Digits(1) == "1";
    }
    var c := Fresh(Given(Str("Ann")), Undefined, Undefined, Given(Str("1")), Absent, Ids([acme]));
    assert c.value.companyId == Some(1);
    var t := [Row(1, 1, 1, c.value)];
    assert Newest(t, 1) == t;
  }
}
