/** The companies routes (companies.js) as functions on values: what a
    create and an update write into a row, and what the listing shows. The
    table changes themselves are made by the store. */
module Companies {
  import opened Wrappers
  import opened Json
  import opened Table

  const NameRequired := "Name is required"
  const CompanyNotFound := "Company not found"

  /** The columns of a companies row besides id, user_id and the stamps. */
  datatype Company = Company(name: Value, website: Value, customFields: StoredBag)

  /** `POST /companies`: the row written for a request, or the refusal. A falsy
      name is refused; a falsy website is stored as null; custom_fields is stored
      when it is an object and replaced by `{}` otherwise, with no check against
      the defined custom fields. */
  function Fresh(name: Arg, website: Arg, bag: BagArg): (c: Checked<Company>)
    ensures c.Reject? <==> !Supplied(name)
    ensures c.Reject? ==> c.error == NameRequired
    ensures !c.Crash?
    ensures c.Accept? ==> Truthy(c.value.name) && c.value.name == name.v
    ensures c.Accept? ==> (c.value.website == Null <==> !Supplied(website))
    ensures c.Accept? && Supplied(website) ==> c.value.website == website.v
    ensures c.Accept? ==> c.value.customFields.Bag?
    ensures c.Accept? && bag.Object? ==> c.value.customFields.fields == bag.fields
    ensures c.Accept? && !bag.Object? ==> c.value.customFields.fields == map[]
  {
    if !Supplied(name) then Reject(NameRequired)
    else Accept(Company(name.v, OrNull(website), Bag(CreateBag(bag))))
  }

  /** `PUT /companies/:id` applied to the caller's row: each of name and website
      that is not undefined is written as given (null and "" included), the others
      keep their value; custom_fields replaces the bag when `typeof` says object.
      A null name breaks the NOT NULL constraint. */
  function Patch(prev: Company, name: Arg, website: Arg, bag: BagArg): (c: Checked<Company>)
    ensures !c.Reject?
    ensures c.Crash? <==> name == Given(Null)
    ensures c.Crash? ==> c.error == NotNullViolation
    ensures c.Accept? && name.Given? ==> c.value.name == name.v
    ensures c.Accept? && name.Undefined? ==> c.value.name == prev.name
    ensures c.Accept? ==> c.value.name != Null || prev.name == Null
    ensures c.Accept? && website.Given? ==> c.value.website == website.v
    ensures c.Accept? && website.Undefined? ==> c.value.website == prev.website
    ensures c.Accept? && IsObjectType(bag) ==> Show(c.value.customFields) == (if bag.Object? then bag.fields else map[])
    ensures c.Accept? && !IsObjectType(bag) ==> c.value.customFields == prev.customFields
  {
    if name == Given(Null) then Crash(NotNullViolation)
    else
      Accept(Company(
        if name.Given? then name.v else prev.name,
        if website.Given? then website.v else prev.website,
        UpdateBag(bag, prev.customFields)))
  }

  /** Sending the same update twice leaves the row as the first one left it. */
  lemma PatchIdempotent(prev: Company, name: Arg, website: Arg, bag: BagArg)
    requires Patch(prev, name, website, bag).Accept?
    ensures var once := Patch(prev, name, website, bag).value;
            Patch(once, name, website, bag) == Accept(once)
  {
  }

  /** An update that supplies nothing (and no object bag) changes nothing. */
  lemma PatchNothing(prev: Company, bag: BagArg)
    requires !IsObjectType(bag)
    ensures Patch(prev, Undefined, Undefined, bag) == Accept(prev)
  {
  }

  /** `GET /companies`: the caller's rows, newest first, each with its bag shown
      as `{}` when null. */
  function Listing(t: seq<Row<Company>>, user: nat): (r: seq<Shown<Row<Company>>>)
    requires Ordered(t)
    ensures |r| == |Newest(t, user)|
    ensures forall i :: 0 <= i < |r| ==>
      r[i].row.user == user && r[i].row in t && r[i].customFields == Show(r[i].row.data.customFields)
    ensures forall i, j :: 0 <= i < j < |r| ==> r[i].row.created > r[j].row.created
    ensures forall i :: 0 <= i < |t| && t[i].user == user ==> exists k :: 0 <= k < |r| && r[k].row == t[i]
  {
    var mine := Newest(t, user);
    NewestFirst(t, user);
    var r := seq(|mine|, k requires 0 <= k < |mine| => Shown(mine[k], Show(mine[k].data.customFields)));
    assert forall i :: 0 <= i < |t| && t[i].user == user ==> exists k :: 0 <= k < |r| && r[k].row == t[i] by {
      forall i | 0 <= i < |t| && t[i].user == user ensures exists k :: 0 <= k < |r| && r[k].row == t[i] {
        var k :| 0 <= k < |mine| && mine[k] == t[i];
        assert r[k].row == t[i];
      }
    }
    r
  }
}
