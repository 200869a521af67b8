/** What the four tenant-scoped tables (companies, contacts, deals,
    custom_fields) have in common: a serial id, the owning `user_id`, a
    creation stamp, and the rules of their foreign-key columns. A table is a
    sequence of rows in insertion order. */
module Table {
  import opened Wrappers
  import opened Json
  import Decimal

  /** Error texts of the database for the constraint violations the handlers do not catch. */
  const NotNullViolation := "null value violates not-null constraint"
  const ForeignKeyViolation := "insert or update violates foreign key constraint"
  const InvalidInteger := "invalid input syntax for type integer"

  /** A row: serial `id`, owner `user_id`, `created` standing for `created_at`
      (a store-wide insertion counter), and the table's own columns. */
  datatype Row<+T> = Row(id: nat, user: nat, created: nat, data: T)

  /** Rows in insertion order: ids and creation stamps strictly increase,
      so in particular no two rows share an id. */
  ghost predicate Ordered<T>(t: seq<Row<T>>)
  {
    forall i, j :: 0 <= i < j < |t| ==> t[i].id < t[j].id && t[i].created < t[j].created
  }

  /** Every id is below the next serial value and every stamp below the clock. */
  ghost predicate Below<T>(t: seq<Row<T>>, nextId: nat, clock: nat)
  {
    forall r :: r in t ==> r.id < nextId && r.created < clock
  }

  /** What the schema guarantees of every tenant table: rows in insertion
      order, ids and stamps already handed out, and every owner an existing
      user (`user_id INTEGER NOT NULL REFERENCES users(id)`). */
  ghost predicate WellFormed<T>(t: seq<Row<T>>, nextId: nat, clock: nat, users: set<nat>)
  {
    Ordered(t) && Below(t, nextId, clock) && forall r :: r in t ==> r.user in users
  }

  function Ids<T>(t: seq<Row<T>>): set<nat>
  {
    set i | 0 <= i < |t| :: t[i].id
  }

  /** Ids of the rows a user owns. */
  function OwnedIds<T>(t: seq<Row<T>>, user: nat): set<nat>
  {
    set i | 0 <= i < |t| && t[i].user == user :: t[i].id
  }

  lemma OrderedHead<T>(t: seq<Row<T>>)
    requires Ordered(t) && t != []
    ensures Ordered(t[1..])
    ensures forall i :: 0 <= i < |t[1..]| ==> t[0].id < t[1..][i].id && t[0].created < t[1..][i].created
  {
    forall i | 0 <= i < |t[1..]| ensures t[0].id < t[1..][i].id && t[0].created < t[1..][i].created {
      assert t[1..][i] == t[i + 1];
    }
  }

  /** A row with a fresh id and stamp may be appended. */
  lemma OrderedAppend<T>(t: seq<Row<T>>, r: Row<T>)
    requires Ordered(t) && Below(t, r.id, r.created)
    ensures Ordered(t + [r])
  {
  }

  /** The index of the row with this id owned by this user
      (`WHERE id = $1 AND user_id = $2`), if there is one. */
  function Find<T>(t: seq<Row<T>>, id: nat, user: nat): (k: Option<nat>)
    ensures k.Some? ==> k.value < |t| && t[k.value].id == id && t[k.value].user == user
    ensures k.None? ==> forall i :: 0 <= i < |t| ==> !(t[i].id == id && t[i].user == user)
  {
    if t == [] then None
    else if t[0].id == id && t[0].user == user then Some(0)
    else match Find(t[1..], id, user)
      case None => None
      case Some(j) => Some(j + 1)
  }

  /** Find returns the first matching row. */
  lemma {:induction false} FindFirst<T>(t: seq<Row<T>>, id: nat, user: nat, j: nat)
    requires j < |t| && t[j].id == id && t[j].user == user
    ensures Find(t, id, user).Some? && Find(t, id, user).value <= j
  {
    if t[0].id == id && t[0].user == user {
    } else {
      FindFirst(t[1..], id, user, j - 1);
    }
  }

  /** The index of the row with this id whoever owns it (`ON c.company_id = co.id`). */
  function Lookup<T>(t: seq<Row<T>>, id: nat): (k: Option<nat>)
    ensures k.Some? ==> k.value < |t| && t[k.value].id == id
    ensures k.None? <==> id !in Ids(t)
  {
    if t == [] then None
    else if t[0].id == id then Some(0)
    else match Lookup(t[1..], id)
      case None => (assert Ids(t) == {t[0].id} + Ids(t[1..]); None)
      case Some(j) => Some(j + 1)
  }

  /** With unique ids, looking a row up by id alone finds the same row as the
      tenant-scoped search, as long as the row belongs to that tenant. */
  lemma FindIsLookup<T>(t: seq<Row<T>>, id: nat, user: nat)
    requires Ordered(t) && id in OwnedIds(t, user)
    ensures Find(t, id, user) == Lookup(t, id)
  {
    var i :| 0 <= i < |t| && t[i].user == user && t[i].id == id;
    var a, b := Find(t, id, user), Lookup(t, id);
    assert a.Some?;
    assert b.Some?;
  }

  /** `LEFT JOIN y ON x.ref = y.id` as the listings write it: the linked row,
      whoever owns it. */
  function JoinAsWritten<T>(t: seq<Row<T>>, link: Option<nat>): (j: Option<Row<T>>)
    ensures j.Some? ==> link.Some? && j.value in t && j.value.id == link.value
    ensures link.Some? && link.value in Ids(t) ==> j.Some?
  {
    if link.None? then None
    else match Lookup(t, link.value)
      case None => None
      case Some(k) => Some(t[k])
  }

  /** The same join kept to the caller's rows (`... AND y.user_id = $1`). */
  function Join<T>(t: seq<Row<T>>, link: Option<nat>, user: nat): (j: Option<Row<T>>)
    ensures j.Some? ==> link.Some? && j.value in t && j.value.id == link.value && j.value.user == user
    ensures link.Some? && link.value in OwnedIds(t, user) ==> j.Some?
  {
    if link.None? then None
    else match Find(t, link.value, user)
      case None => None
      case Some(k) => Some(t[k])
  }

  /** A row another tenant adds never changes what the caller's join finds. */
  lemma JoinIsolated<T>(t: seq<Row<T>>, link: Option<nat>, user: nat, other: Row<T>)
    requires other.user != user
    ensures Join(t + [other], link, user) == Join(t, link, user)
  {
    if link.Some? {
      var a, b := Find(t + [other], link.value, user), Find(t, link.value, user);
      if b.Some? {
        assert (t + [other])[b.value] == t[b.value];
        FindFirst(t + [other], link.value, user, b.value);
        assert (t + [other])[a.value] == t[a.value];
        FindFirst(t, link.value, user, a.value);
      }
    }
  }

  /** On links to the caller's own rows the two joins agree; they differ only
      where a link names another tenant's row. */
  lemma JoinAgrees<T>(t: seq<Row<T>>, link: Option<nat>, user: nat)
    requires Ordered(t)
    requires link.Some? ==> link.value in OwnedIds(t, user)
    ensures Join(t, link, user) == JoinAsWritten(t, link)
  {
    if link.Some? {
      FindIsLookup(t, link.value, user);
    }
  }

  /** `DELETE ... WHERE id = $1 AND user_id = $2` once the row is found at k:
      every other row stays, unchanged and in order. */
  function Without<T>(t: seq<Row<T>>, k: nat): (r: seq<Row<T>>)
    requires k < |t|
    ensures |r| == |t| - 1
    ensures forall i :: 0 <= i < |r| ==> r[i] == (if i < k then t[i] else t[i + 1])
    ensures forall x :: x in r ==> x in t
  {
    assert t == t[..k] + [t[k]] + t[k + 1..];
    t[..k] + t[k + 1..]
  }

  /** Deleting one row keeps the table in order, removes exactly that row's id
      and keeps every other row. */
  lemma WithoutKeeps<T>(t: seq<Row<T>>, k: nat)
    requires k < |t| && Ordered(t)
    ensures Ordered(Without(t, k))
    ensures Ids(Without(t, k)) == Ids(t) - {t[k].id}
  {
    var r := Without(t, k);
    forall x | x in Ids(t) - {t[k].id} ensures x in Ids(r) {
      var i :| 0 <= i < |t| && t[i].id == x;
      if i < k { assert r[i] == t[i]; } else { assert r[i - 1] == t[i]; }
    }
  }

  /** With unique ids, the rows left are exactly those with another id. */
  lemma WithoutExact<T>(t: seq<Row<T>>, k: nat, x: Row<T>)
    requires k < |t| && Ordered(t)
    ensures x in Without(t, k) <==> x in t && x.id != t[k].id
  {
    var r := Without(t, k);
    if x in t && x.id != t[k].id {
      var i :| 0 <= i < |t| && t[i] == x;
      if i < k { assert r[i] == t[i]; } else { assert r[i - 1] == t[i]; }
    }
    if x in r {
      var i :| 0 <= i < |r| && r[i] == x;
      if i < k { assert x == t[i]; } else { assert x == t[i + 1]; }
    }
  }

  /** With unique ids, deleting the row at k leaves exactly the rows with another id. */
  lemma WithoutExactly<T>(t: seq<Row<T>>, k: nat)
    requires k < |t| && Ordered(t)
    ensures forall x :: x in Without(t, k) <==> x in t && x.id != t[k].id
  {
    forall x ensures x in Without(t, k) <==> x in t && x.id != t[k].id {
      WithoutExact(t, k, x);
    }
  }

  /** The tenant-scoped search succeeds exactly for the ids the tenant owns. */
  lemma FindOwned<T>(t: seq<Row<T>>, id: nat, user: nat)
    ensures Find(t, id, user).Some? <==> id in OwnedIds(t, user)
  {
    match Find(t, id, user)
    case Some(k) => assert t[k].id in OwnedIds(t, user);
    case None =>
  }

  /** `UPDATE ... SET ...` of the row at k: the same rows in the same order,
      that one with new columns. */
  function Replace<T>(t: seq<Row<T>>, k: nat, data: T): (r: seq<Row<T>>)
    requires k < |t|
    ensures |r| == |t| && r[k] == t[k].(data := data)
    ensures forall i :: 0 <= i < |t| && i != k ==> r[i] == t[i]
  {
    t[k := t[k].(data := data)]
  }

  /** Replacing columns keeps the order, the ids and the stamps. */
  lemma ReplaceKeeps<T>(t: seq<Row<T>>, k: nat, data: T)
    requires k < |t| && Ordered(t)
    ensures Ordered(Replace(t, k, data)) && Ids(Replace(t, k, data)) == Ids(t)
    ensures forall x :: x in Replace(t, k, data) ==> x in t || x == t[k].(data := data)
  {
    var r := Replace(t, k, data);
    forall x | x in Ids(t) ensures x in Ids(r) {
      var i :| 0 <= i < |t| && t[i].id == x;
      assert r[i].id == x;
    }
  }

  /** The rows not owned by `user` (`ON DELETE CASCADE` from users), in order. */
  function Disown<T>(t: seq<Row<T>>, user: nat): (r: seq<Row<T>>)
    ensures |r| <= |t|
    ensures forall i :: 0 <= i < |r| ==> r[i].user != user
    ensures forall i :: 0 <= i < |t| && t[i].user != user ==> t[i] in r
    ensures forall x :: x in r ==> x in t
  {
    if t == [] then []
    else
      var rest := Disown(t[1..], user);
      assert forall i :: 1 <= i < |t| ==> t[i] == t[1..][i - 1];
      if t[0].user == user then rest else [t[0]] + rest
  }

  /** The cascade keeps the table in order. */
  lemma {:induction false} DisownOrdered<T>(t: seq<Row<T>>, user: nat)
    requires Ordered(t)
    ensures Ordered(Disown(t, user))
  {
    if t != [] {
      OrderedHead(t);
      DisownOrdered(t[1..], user);
      var rest := Disown(t[1..], user);
      if t[0].user != user {
        forall i | 0 <= i < |rest| ensures t[0].id < rest[i].id && t[0].created < rest[i].created {
          assert rest[i] in t[1..];
          var j :| 0 <= j < |t[1..]| && t[1..][j] == rest[i];
        }
        ConsOrdered(t[0], rest);
      }
    }
  }

  /** A row older and lower-numbered than every row of an ordered table may
      lead it. */
  lemma ConsOrdered<T>(x: Row<T>, t: seq<Row<T>>)
    requires Ordered(t)
    requires forall i :: 0 <= i < |t| ==> x.id < t[i].id && x.created < t[i].created
    ensures Ordered([x] + t)
  {
    var r := [x] + t;
    forall i, j | 0 <= i < j < |r| ensures r[i].id < r[j].id && r[i].created < r[j].created {
      assert r[j] == t[j - 1];
      if i > 0 {
        assert r[i] == t[i - 1];
      }
    }
  }

  /** The cascade removes exactly the ids the user owns. */
  lemma DisownIds<T>(t: seq<Row<T>>, user: nat)
    requires Ordered(t)
    ensures Ids(Disown(t, user)) == Ids(t) - OwnedIds(t, user)
  {
    var r := Disown(t, user);
    forall x | x in Ids(t) - OwnedIds(t, user) ensures x in Ids(r) {
      var i :| 0 <= i < |t| && t[i].id == x;
      assert t[i].user != user;
      assert t[i] in r;
    }
    forall x | x in Ids(r) ensures x in Ids(t) - OwnedIds(t, user) {
      var i :| 0 <= i < |r| && r[i].id == x;
      assert r[i] in t;
      var j :| 0 <= j < |t| && t[j] == r[i];
    }
  }

  /** Adding a row with the next id and stamp, for an existing user, keeps a
      table well formed once the counters move past it. */
  lemma AppendWellFormed<T>(t: seq<Row<T>>, r: Row<T>, users: set<nat>)
    requires WellFormed(t, r.id, r.created, users) && r.user in users
    ensures WellFormed(t + [r], r.id + 1, r.created + 1, users)
  {
    OrderedAppend(t, r);
  }

  lemma IdsAppend<T>(t: seq<Row<T>>, r: Row<T>)
    ensures Ids(t + [r]) == Ids(t) + {r.id}
  {
    var u := t + [r];
    forall x | x in Ids(t) ensures x in Ids(u) {
      var i :| 0 <= i < |t| && t[i].id == x;
      assert u[i] == t[i];
    }
    assert u[|t|] == r;
  }

  /** Deleting a row, replacing a row's columns, and the cascade of a user's
      deletion all keep a table well formed. */
  lemma WithoutWellFormed<T>(t: seq<Row<T>>, k: nat, nextId: nat, clock: nat, users: set<nat>)
    requires k < |t| && WellFormed(t, nextId, clock, users)
    ensures WellFormed(Without(t, k), nextId, clock, users)
  {
    WithoutKeeps(t, k);
  }

  lemma ReplaceWellFormed<T>(t: seq<Row<T>>, k: nat, data: T, nextId: nat, clock: nat, users: set<nat>)
    requires k < |t| && WellFormed(t, nextId, clock, users)
    ensures WellFormed(Replace(t, k, data), nextId, clock, users)
  {
    ReplaceKeeps(t, k, data);
  }

  lemma DisownWellFormed<T>(t: seq<Row<T>>, user: nat, nextId: nat, clock: nat, users: set<nat>)
    requires WellFormed(t, nextId, clock, users)
    ensures WellFormed(Disown(t, user), nextId, clock, users - {user})
  {
    DisownOrdered(t, user);
  }

  /** The rows a user owns, newest first (`WHERE user_id = $1 ORDER BY created_at DESC`). */
  function Newest<T>(t: seq<Row<T>>, user: nat): (r: seq<Row<T>>)
    ensures |r| <= |t|
    ensures forall i :: 0 <= i < |r| ==> r[i].user == user && r[i] in t
    ensures forall i :: 0 <= i < |t| && t[i].user == user ==> t[i] in r
  {
    if t == [] then []
    else
      var rest := Newest(t[1..], user);
      assert forall i :: 1 <= i < |t| ==> t[i] == t[1..][i - 1];
      if t[0].user == user then rest + [t[0]] else rest
  }

  /** Listed rows come newest first: their creation stamps strictly decrease. */
  lemma {:induction false} NewestFirst<T>(t: seq<Row<T>>, user: nat)
    requires Ordered(t)
    ensures forall i, j :: 0 <= i < j < |Newest(t, user)| ==> Newest(t, user)[i].created > Newest(t, user)[j].created
  {
    if t != [] {
      OrderedHead(t);
      NewestFirst(t[1..], user);
      var rest := Newest(t[1..], user);
      forall i | 0 <= i < |rest| ensures rest[i].created > t[0].created {
        var j :| 0 <= j < |t[1..]| && t[1..][j] == rest[i];
      }
    }
  }

  /** A value the database can read as an integer (or null) when it binds a
      statement's parameters; anything else fails before the statement runs. */
  predicate IsInteger(v: Value)
  {
    v.Null? || v.Num? || (v.Str? && Decimal.ParseNat(v.s).Some?)
  }

  /** The id a value names when the database reads it as an integer: a
      non-negative number, or the number a string of decimal digits spells. */
  function RefId(v: Value): Option<nat>
  {
    match v
    case Num(n) => if n >= 0 then Some(n) else None
    case Str(s) => Decimal.ParseNat(s)
    case _ => None
  }

  /** How the database reads a value given for an integer foreign-key column:
      null is stored as null; a number, or a string of decimal digits (the
      client sends ids as strings), must be the id of an existing row; anything
      else is refused as an integer. */
  function Reference(v: Value, ids: set<nat>): (c: Checked<Option<nat>>)
    ensures !c.Reject?
    ensures c.Accept? && c.value.Some? ==> c.value.value in ids
    ensures c.Accept? ==> c.value == RefId(v)
    ensures IsInteger(v) && v != Null ==> (c.Accept? <==> RefId(v).Some? && RefId(v).value in ids)
    ensures c == Accept(None) <==> v == Null
    ensures v.Num? ==> (c.Accept? <==> v.n >= 0 && v.n in ids)
    ensures c == Crash(InvalidInteger) <==> !IsInteger(v)
    ensures c.Crash? && IsInteger(v) ==> c.error == ForeignKeyViolation
  {
    match v
    case Null => Accept(None)
    case Num(n) => if n >= 0 && n in ids then Accept(Some(n)) else Crash(ForeignKeyViolation)
    case Str(s) =>
      (match Decimal.ParseNat(s)
       case Some(n) => if n in ids then Accept(Some(n)) else Crash(ForeignKeyViolation)
       case None => Crash(InvalidInteger))
    case Bool(_) => Crash(InvalidInteger)
  }

  /** Whether an INSERT got as far as running, and so drew the next serial id:
      it did unless it was refused before reaching the database or a parameter
      failed to bind. */
  predicate Executes<T>(c: Checked<T>)
  {
    c.Accept? || (c.Crash? && c.error != InvalidInteger)
  }

  /** A reference column is null or names a row of the referenced table. */
  predicate Links(ref: Option<nat>, ids: set<nat>)
  {
    ref.Some? ==> ref.value in ids
  }
}
