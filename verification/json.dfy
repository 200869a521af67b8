/** JSON values as the route handlers see them in request bodies and in
    stored rows, with JavaScript truthiness and the handling of the
    `custom_fields` bag. */
module Json {

  /** A scalar JSON value. Numbers are integers here; nothing in the handlers
      does arithmetic on them. */
  datatype Value = Null | Bool(b: bool) | Num(n: int) | Str(s: string)

  /** A native field of a request body; Undefined when the key is missing. */
  datatype Arg = Undefined | Given(v: Value)

  /** The `custom_fields` member of a request body: missing, JSON null, a
      string, number or boolean, or an object mapping slugs to values. */
  datatype BagArg = Absent | JsonNull | NonObject | Object(fields: map<string, Value>)

  /** The JSONB `custom_fields` column: an object, or null (SQL NULL or JSON null). */
  datatype StoredBag = NullBag | Bag(fields: map<string, Value>)

  /** A stored row together with the bag a reply shows for it. */
  datatype Shown<+T> = Shown(row: T, customFields: map<string, Value>)

  /** JavaScript truthiness of a scalar. */
  predicate Truthy(v: Value)
  {
    match v
    case Null => false
    case Bool(b) => b
    case Num(n) => n != 0
    case Str(s) => s != ""
  }

  /** JavaScript truthiness of a request field: `!x` is false exactly when this holds. */
  predicate Supplied(a: Arg)
  {
    a.Given? && Truthy(a.v)
  }

  /** Definition of JavaScript's `a || d` on a request field: the field when it
      is truthy, otherwise the default d. The ensures spell out the two cases;
      OrNull and the handlers carry the properties built on it. */
  function Or(a: Arg, d: Value): (r: Value)
    ensures Supplied(a) ==> r == a.v
    ensures !Supplied(a) ==> r == d
  {
    if Supplied(a) then a.v else d
  }

  /** `a || null`: a falsy field (missing, null, false, 0 or "") is stored as null,
      so a stored value is either null or truthy. */
  function OrNull(a: Arg): (r: Value)
    ensures r == Null || Truthy(r)
    ensures r != Null <==> Supplied(a)
  {
    Or(a, Null)
  }

  /** `typeof x === 'object'` for a request's custom_fields (null included). */
  predicate IsObjectType(a: BagArg)
  {
    a.JsonNull? || a.Object?
  }

  /** Definition of `custom_fields && typeof custom_fields === 'object' ?
      custom_fields : {}`, the bag a create stores: the given object when it is
      a truthy object, else `{}`. JSON null is an object to `typeof` but falsy,
      so it gives `{}` too. */
  function CreateBag(a: BagArg): (m: map<string, Value>)
    ensures a.Object? ==> m == a.fields
    ensures !a.Object? ==> m == map[]
  {
    if a.Object? then a.fields else map[]
  }

  /** Definition of the bag an update leaves stored: when custom_fields is not
      undefined and `typeof` says object, it replaces the stored bag as a whole
      (JSON null included); otherwise the stored bag stays. */
  function UpdateBag(a: BagArg, stored: StoredBag): (b: StoredBag)
    ensures IsObjectType(a) ==> b == (if a.Object? then Bag(a.fields) else NullBag)
    ensures !IsObjectType(a) ==> b == stored
  {
    match a
    case Object(m) => Bag(m)
    case JsonNull => NullBag
    case _ => stored
  }

  /** `row.custom_fields || {}`: the bag every reply shows, never null. */
  function Show(b: StoredBag): map<string, Value>
  {
    if b.Bag? then b.fields else map[]
  }

  /** An update that carries an object replaces the bag wholesale: the shown bag is
      exactly the new object, so a key stored before and absent from it is gone. */
  lemma UpdateReplacesBag(a: BagArg, stored: StoredBag, key: string)
    requires a.Object?
    ensures Show(UpdateBag(a, stored)) == a.fields
    ensures key in Show(stored) && key !in a.fields ==> key !in Show(UpdateBag(a, stored))
  {
  }

  /** JSON null is refused as a bag by create (`{}` is stored) but accepted by
      update (null is stored); both then show an empty bag. */
  lemma NullBagAsymmetry(stored: StoredBag)
    ensures Bag(CreateBag(JsonNull)) == Bag(map[])
    ensures UpdateBag(JsonNull, stored) == NullBag
    ensures Show(UpdateBag(JsonNull, stored)) == map[]
  {
  }
}
