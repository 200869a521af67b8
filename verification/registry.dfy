/** The custom-field registry of settings.js: the checks `POST /custom-fields`
    makes before inserting, the display order it assigns, the uniqueness of
    `(user_id, entity_type, slug)`, and the listing of `GET /custom-fields`. */
module Registry {
  import opened Wrappers
  import opened Json
  import opened Slug
  import opened TextOrder
  import opened Table
  import Decimal

  const Required := "entity_type and field_name are required"
  const BadEntityType := "entity_type must be contact or company"
  const InvalidFieldName := "Invalid field name"
  const DuplicateField := "A field with this name already exists"
  const FieldNotFound := "Custom field not found"
  /** The TypeError thrown when field_name is truthy but not a string. */
  const NotAString := "field_name.toLowerCase is not a function"

  /** The column default of `field_type`, also the fallback for an unknown type. */
  const DefaultFieldType := "text"
  const EntityTypes: set<string> := {"contact", "company"}
  const FieldTypes: set<string> := {"text", "number", "email", "phone", "date", "url"}

  /** A row of the custom_fields table (besides id, user_id and created_at). */
  datatype FieldDef = FieldDef(entityType: string, fieldName: string, slug: string, fieldType: string, displayOrder: int)

  /** What a valid request defines, before a display order is assigned. */
  datatype Draft = Draft(entityType: string, fieldName: string, slug: string, fieldType: string)

  /** `allowedTypes.includes(field_type) ? field_type : 'text'`. */
  function FieldType(a: Arg): (t: string)
    ensures t in FieldTypes
    ensures a.Given? && a.v.Str? && a.v.s in FieldTypes ==> t == a.v.s
    ensures !(a.Given? && a.v.Str? && a.v.s in FieldTypes) ==> t == DefaultFieldType
  {
    if a.Given? && a.v.Str? && a.v.s in FieldTypes then a.v.s else DefaultFieldType
  }

  predicate KnownEntityType(a: Arg)
  {
    a.Given? && a.v.Str? && a.v.s in EntityTypes
  }

  /** The request checks of `POST /custom-fields`, in the order the handler makes them. */
  function Check(entityType: Arg, fieldName: Arg, fieldType: Arg): (c: Checked<Draft>)
    ensures c == Reject(Required) <==> !Supplied(entityType) || !Supplied(fieldName)
    ensures c == Reject(BadEntityType)
        <==> Supplied(entityType) && Supplied(fieldName) && !KnownEntityType(entityType)
    ensures c.Crash?
        <==> Supplied(entityType) && Supplied(fieldName) && KnownEntityType(entityType) && !fieldName.v.Str?
    ensures c == Reject(InvalidFieldName)
        <==> Supplied(entityType) && Supplied(fieldName) && KnownEntityType(entityType)
             && fieldName.v.Str? && Derive(fieldName.v.s) == []
    ensures c.Accept? ==>
      && KnownEntityType(entityType) && fieldName.Given? && fieldName.v.Str?
      && c.value.entityType == entityType.v.s
      && c.value.fieldName == Trim(fieldName.v.s)
      && c.value.slug == Derive(fieldName.v.s) && c.value.slug != []
      && c.value.fieldType == FieldType(fieldType)
  {
    if !Supplied(entityType) || !Supplied(fieldName) then Reject(Required)
    else if !KnownEntityType(entityType) then Reject(BadEntityType)
    else if !fieldName.v.Str? then Crash(NotAString)
    else
      var slug := Derive(fieldName.v.s);
      if slug == [] then Reject(InvalidFieldName)
      else Accept(Draft(entityType.v.s, Trim(fieldName.v.s), slug, FieldType(fieldType)))
  }

  /** A name of white space only passes every check: its slug is `_` and the
      stored name, trimmed, is empty. */
  lemma BlankNameAccepted(kind: string, name: string, fieldType: Arg)
    requires kind in EntityTypes
    requires name != [] && forall i :: 0 <= i < |name| ==> IsSpace(name[i])
    ensures Check(Given(Str(kind)), Given(Str(name)), fieldType)
         == Accept(Draft(kind, "", "_", FieldType(fieldType)))
  {
    DeriveBlank(name);
  }

  // ---- Uniqueness of (user_id, entity_type, slug) --------------------------------

  /** Some row of the user already has this slug for this entity type. */
  predicate Clash(t: seq<Row<FieldDef>>, user: nat, kind: string, slug: string)
  {
    exists i :: 0 <= i < |t| && t[i].user == user && t[i].data.entityType == kind && t[i].data.slug == slug
  }

  /** Two rows with the same (user_id, entity_type, slug). */
  predicate SameKey(a: Row<FieldDef>, b: Row<FieldDef>)
  {
    a.user == b.user && a.data.entityType == b.data.entityType && a.data.slug == b.data.slug
  }

  /** `UNIQUE(user_id, entity_type, slug)`: rows sharing the triple are one row. */
  ghost predicate Unique(t: seq<Row<FieldDef>>)
  {
    forall a, b :: a in t && b in t && SameKey(a, b) ==> a == b
  }

  /** What every row written by `POST /custom-fields` satisfies. */
  ghost predicate Sound(t: seq<Row<FieldDef>>)
  {
    forall r :: r in t ==>
      r.data.entityType in EntityTypes && r.data.fieldType in FieldTypes
      && r.data.slug != [] && AllSlugChars(r.data.slug)
  }

  /** A row whose triple clashes with no existing row keeps the table unique. */
  lemma UniqueAppend(t: seq<Row<FieldDef>>, r: Row<FieldDef>)
    requires Unique(t) && !Clash(t, r.user, r.data.entityType, r.data.slug)
    ensures Unique(t + [r])
  {
  }

  /** The uniqueness is per tenant and per entity type: after a row is added,
      a triple clashes exactly when it clashed before or is that row's own; so the
      same slug under the other entity type or for another tenant stays free. */
  lemma ClashAppend(t: seq<Row<FieldDef>>, r: Row<FieldDef>, user: nat, kind: string, slug: string)
    ensures Clash(t + [r], user, kind, slug)
        <==> Clash(t, user, kind, slug) || (r.user == user && r.data.entityType == kind && r.data.slug == slug)
  {
    var u := t + [r];
    if Clash(t, user, kind, slug) {
      var i :| 0 <= i < |t| && t[i].user == user && t[i].data.entityType == kind && t[i].data.slug == slug;
      assert u[i] == t[i];
    }
    if r.user == user && r.data.entityType == kind && r.data.slug == slug {
      assert u[|t|] == r;
    }
    if Clash(u, user, kind, slug) {
      var i :| 0 <= i < |u| && u[i].user == user && u[i].data.entityType == kind && u[i].data.slug == slug;
      if i < |t| { assert u[i] == t[i]; }
    }
  }

  // ---- Display order ---------------------------------------------------------------

  predicate InGroup(r: Row<FieldDef>, user: nat, kind: string)
  {
    r.user == user && r.data.entityType == kind
  }

  /** `MAX(display_order)` over the user's fields of one entity type; None when there are none. */
  function MaxOrder(t: seq<Row<FieldDef>>, user: nat, kind: string): (m: Option<int>)
    ensures m.None? <==> forall i :: 0 <= i < |t| ==> !InGroup(t[i], user, kind)
    ensures m.Some? ==> forall i :: 0 <= i < |t| && InGroup(t[i], user, kind) ==> t[i].data.displayOrder <= m.value
    ensures m.Some? ==> exists i :: 0 <= i < |t| && InGroup(t[i], user, kind) && t[i].data.displayOrder == m.value
  {
    if t == [] then None
    else
      var rest := MaxOrder(t[1..], user, kind);
      assert forall i :: 1 <= i < |t| ==> t[i] == t[1..][i - 1];
      if !InGroup(t[0], user, kind) then rest
      else match rest
        case None => Some(t[0].data.displayOrder)
        case Some(m) => Some(if m < t[0].data.displayOrder then t[0].data.displayOrder else m)
  }

  /** `COALESCE(MAX(display_order), 0) + 1`: one more than the largest order in
      the group, so larger than every order there, and 1 for an empty group. */
  function NextOrder(t: seq<Row<FieldDef>>, user: nat, kind: string): (n: int)
    ensures forall i :: 0 <= i < |t| && InGroup(t[i], user, kind) ==> t[i].data.displayOrder < n
    ensures (forall i :: 0 <= i < |t| ==> !InGroup(t[i], user, kind)) ==> n == 1
    ensures (exists i :: 0 <= i < |t| && InGroup(t[i], user, kind))
        ==> exists i :: 0 <= i < |t| && InGroup(t[i], user, kind) && t[i].data.displayOrder == n - 1
  {
    match MaxOrder(t, user, kind)
    case None => 1
    case Some(m) => m + 1
  }

  // ---- Listing ---------------------------------------------------------------------

  /** `ORDER BY entity_type, display_order, field_name`, with plain string order. */
  predicate KeyLe(a: Row<FieldDef>, b: Row<FieldDef>)
  {
    StrLt(a.data.entityType, b.data.entityType)
    || (a.data.entityType == b.data.entityType
        && (a.data.displayOrder < b.data.displayOrder
            || (a.data.displayOrder == b.data.displayOrder && StrLe(a.data.fieldName, b.data.fieldName))))
  }

  lemma KeyLeTotal(a: Row<FieldDef>, b: Row<FieldDef>)
    ensures KeyLe(a, b) || KeyLe(b, a)
  {
    StrLeTotal(a.data.entityType, b.data.entityType);
    StrLeTotal(a.data.fieldName, b.data.fieldName);
  }

  lemma KeyLeTransitive(a: Row<FieldDef>, b: Row<FieldDef>, c: Row<FieldDef>)
    requires KeyLe(a, b) && KeyLe(b, c)
    ensures KeyLe(a, c)
  {
    var x, y, z := a.data.entityType, b.data.entityType, c.data.entityType;
    if x == y == z {
      if a.data.displayOrder == b.data.displayOrder == c.data.displayOrder {
        StrLeTransitive(a.data.fieldName, b.data.fieldName, c.data.fieldName);
      }
    } else {
      StrLeReflexive(x);
      StrLeReflexive(y);
      StrLtTransitive(x, y, z);
    }
  }

  ghost predicate Sorted(s: seq<Row<FieldDef>>)
  {
    forall i, j :: 0 <= i < j < |s| ==> KeyLe(s[i], s[j])
  }

  function Insert(x: Row<FieldDef>, s: seq<Row<FieldDef>>): (r: seq<Row<FieldDef>>)
    ensures multiset(r) == multiset(s) + multiset{x}
  {
    if s == [] then [x]
    else if KeyLe(x, s[0]) then [x] + s
    else
      assert s == [s[0]] + s[1..];
      [s[0]] + Insert(x, s[1..])
  }

  lemma {:induction false} InsertSorted(x: Row<FieldDef>, s: seq<Row<FieldDef>>)
    requires Sorted(s)
    ensures Sorted(Insert(x, s))
  {
    if s == [] {
    } else if KeyLe(x, s[0]) {
      var r := Insert(x, s);
      forall i, j | 0 <= i < j < |r| ensures KeyLe(r[i], r[j]) {
        if i == 0 && j > 1 {
          KeyLeTransitive(x, s[0], s[j - 1]);
        }
      }
    } else {
      KeyLeTotal(x, s[0]);
      SortedTail(s);
      InsertSorted(x, s[1..]);
      var rest := Insert(x, s[1..]);
      var r := Insert(x, s);
      assert r == [s[0]] + rest;
      HeadBelowInsert(x, s);
      forall i, j | 0 <= i < j < |r| ensures KeyLe(r[i], r[j]) {
        if i == 0 {
          assert r[j] == rest[j - 1];
        } else {
          assert r[i] == rest[i - 1] && r[j] == rest[j - 1];
        }
      }
    }
  }

  lemma SortedTail(s: seq<Row<FieldDef>>)
    requires s != [] && Sorted(s)
    ensures Sorted(s[1..])
  {
    forall i, j | 0 <= i < j < |s[1..]| ensures KeyLe(s[1..][i], s[1..][j]) {
      assert s[1..][i] == s[i + 1] && s[1..][j] == s[j + 1];
    }
  }

  /** The head of a sorted sequence stays below everything once x, which it
      precedes, is inserted into the tail. */
  lemma HeadBelowInsert(x: Row<FieldDef>, s: seq<Row<FieldDef>>)
    requires s != [] && Sorted(s) && KeyLe(s[0], x)
    ensures forall k :: 0 <= k < |Insert(x, s[1..])| ==> KeyLe(s[0], Insert(x, s[1..])[k])
  {
    var rest := Insert(x, s[1..]);
    forall k | 0 <= k < |rest| ensures KeyLe(s[0], rest[k]) {
      assert rest[k] in multiset(rest);
      if rest[k] != x {
        assert rest[k] in multiset(s[1..]);
        var m :| 0 <= m < |s[1..]| && s[1..][m] == rest[k];
        assert s[1..][m] == s[m + 1];
      }
    }
  }

  /** Insertion sort by KeyLe: a sorted permutation of its input. */
  function Sort(s: seq<Row<FieldDef>>): (r: seq<Row<FieldDef>>)
    ensures multiset(r) == multiset(s)
    ensures Sorted(r)
  {
    if s == [] then []
    else
      assert s == [s[0]] + s[1..];
      var rest := Sort(s[1..]);
      InsertSorted(s[0], rest);
      Insert(s[0], rest)
  }

  /** `WHERE user_id = $1 [AND entity_type = $2]`; an empty query value filters nothing. */
  predicate Selected(r: Row<FieldDef>, user: nat, kind: string)
  {
    r.user == user && (kind == "" || r.data.entityType == kind)
  }

  function Select(t: seq<Row<FieldDef>>, user: nat, kind: string): (r: seq<Row<FieldDef>>)
    ensures forall x :: x in r ==> x in t && Selected(x, user, kind)
    ensures forall i :: 0 <= i < |t| && Selected(t[i], user, kind) ==> t[i] in r
    ensures |r| <= |t|
    ensures forall x :: multiset(r)[x] == if Selected(x, user, kind) then multiset(t)[x] else 0
  {
    if t == [] then []
    else
      var rest := Select(t[1..], user, kind);
      assert t == [t[0]] + t[1..];
      assert forall x :: x in t <==> x in multiset(t);
      if Selected(t[0], user, kind) then [t[0]] + rest else rest
  }

  /** `r.slug || <slug derived from field_name> || 'field_' + id`: the slug a
      listing shows, never empty; nothing else of the row changes. */
  function Fill(r: Row<FieldDef>): (f: Row<FieldDef>)
    ensures f.data.slug != []
    ensures f.id == r.id && f.user == r.user && f.created == r.created
    ensures f.data == r.data.(slug := f.data.slug)
    ensures r.data.slug != [] ==> f == r
  {
    if r.data.slug != [] then r
    else
      var derived := Derive(r.data.fieldName);
      r.(data := r.data.(slug := if derived != [] then derived else "field_" + Decimal.Digits(r.id)))
  }

  function FillAll(s: seq<Row<FieldDef>>): (r: seq<Row<FieldDef>>)
    ensures |r| == |s| && forall i :: 0 <= i < |s| ==> r[i] == Fill(s[i])
  {
    seq(|s|, i requires 0 <= i < |s| => Fill(s[i]))
  }

  /** Taking out the row at index j takes one copy of it out of the bag. */
  lemma TakeOut<T>(b: seq<T>, j: nat)
    requires j < |b|
    ensures multiset(b) == multiset(b[..j] + b[j + 1..]) + multiset{b[j]}
  {
    assert b == b[..j] + [b[j]] + b[j + 1..];
  }

  /** Taking out the row at index j before filling in slugs takes its filled
      copy out of the filled bag. */
  lemma FillAllTakeOut(b: seq<Row<FieldDef>>, j: nat)
    requires j < |b|
    ensures multiset(FillAll(b)) == multiset(FillAll(b[..j] + b[j + 1..])) + multiset{Fill(b[j])}
  {
    var f := FillAll(b);
    TakeOut(f, j);
    assert f[..j] + f[j + 1..] == FillAll(b[..j] + b[j + 1..]);
  }

  /** Filling in slugs fills the first row and then the rest. */
  lemma FillAllHead(a: seq<Row<FieldDef>>)
    requires a != []
    ensures multiset(FillAll(a)) == multiset(FillAll(a[1..])) + multiset{Fill(a[0])}
  {
    assert FillAll(a) == [Fill(a[0])] + FillAll(a[1..]);
  }

  /** An element of a sequence's bag sits at some index of it. */
  lemma Locate<T>(x: T, b: seq<T>) returns (j: nat)
    requires x in multiset(b)
    ensures j < |b| && b[j] == x
  {
    assert x in b;
    j :| j < |b| && b[j] == x;
  }

  /** One copy of the same element may be cancelled from both sides. */
  lemma Cancel<T>(x: multiset<T>, y: multiset<T>, e: T)
    requires x + multiset{e} == y + multiset{e}
    ensures x == y
  {
    assert forall z :: x[z] == (x + multiset{e})[z] - multiset{e}[z];
    assert forall z :: y[z] == (y + multiset{e})[z] - multiset{e}[z];
  }

  /** Filling in slugs commutes with reordering: permuted inputs give
      permuted outputs. */
  lemma {:induction false} FillAllPermutes(a: seq<Row<FieldDef>>, b: seq<Row<FieldDef>>)
    requires multiset(a) == multiset(b)
    ensures multiset(FillAll(a)) == multiset(FillAll(b))
    decreases |a|
  {
    if a == [] {
      assert |b| == |multiset(b)| == 0;
    } else {
      var j := Locate(a[0], b);
      var rest := b[..j] + b[j + 1..];
      TakeOut(b, j);
      assert a == [a[0]] + a[1..];
      Cancel(multiset(a[1..]), multiset(rest), a[0]);
      FillAllPermutes(a[1..], rest);
      FillAllHead(a);
      FillAllTakeOut(b, j);
    }
  }

  /** Filling in slugs changes no sort key and no owner. */
  lemma FillAllKeeps(s: seq<Row<FieldDef>>, user: nat, kind: string)
    requires Sorted(s) && forall x :: x in s ==> Selected(x, user, kind)
    ensures Sorted(FillAll(s))
    ensures forall i :: 0 <= i < |s| ==> Selected(FillAll(s)[i], user, kind)
  {
    var r := FillAll(s);
    forall i, j | 0 <= i < j < |r| ensures KeyLe(r[i], r[j]) {
      assert KeyLe(s[i], s[j]);
    }
    forall i | 0 <= i < |s| ensures Selected(r[i], user, kind) {
      assert s[i] in s;
    }
  }

  /** `GET /custom-fields`: the caller's rows (of one entity type when one is
      asked for), in (entity_type, display_order, field_name) order, each with a
      non-empty slug. */
  function Listing(t: seq<Row<FieldDef>>, user: nat, kind: string): (r: seq<Row<FieldDef>>)
    ensures Sorted(r)
    ensures forall i :: 0 <= i < |r| ==> Selected(r[i], user, kind) && r[i].data.slug != []
    ensures multiset(r) == multiset(FillAll(Select(t, user, kind)))
  {
    var sel := Select(t, user, kind);
    var sorted := Sort(sel);
    forall x | x in sorted ensures Selected(x, user, kind) { assert x in multiset(sel); }
    FillAllKeeps(sorted, user, kind);
    FillAllPermutes(sorted, sel);
    FillAll(sorted)
  }

  /** The listing shows every selected row, its slug filled in when missing. */
  lemma ListingComplete(t: seq<Row<FieldDef>>, user: nat, kind: string, i: nat)
    requires i < |t| && Selected(t[i], user, kind)
    ensures Fill(t[i]) in Listing(t, user, kind)
  {
    var sel := Select(t, user, kind);
    var sorted := Sort(sel);
    assert t[i] in multiset(sorted);
    var k :| 0 <= k < |sorted| && sorted[k] == t[i];
    assert Listing(t, user, kind)[k] == Fill(t[i]);
  }

  /** Everything the listing shows is a selected row of the table. */
  lemma ListingSound(t: seq<Row<FieldDef>>, user: nat, kind: string, x: Row<FieldDef>)
    requires x in Listing(t, user, kind)
    ensures exists i :: 0 <= i < |t| && Selected(t[i], user, kind) && x == Fill(t[i])
  {
    var sel := Select(t, user, kind);
    var sorted := Sort(sel);
    var r := Listing(t, user, kind);
    var k :| 0 <= k < |r| && r[k] == x;
    assert sorted[k] in multiset(sel);
    assert sorted[k] in t;
    var i :| 0 <= i < |t| && t[i] == sorted[k];
  }
}
