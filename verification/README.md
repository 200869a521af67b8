# CRM server core in Dafny

A model of the server side of a small multi-tenant CRM. Each signed-up user
owns companies, contacts and deals, and can define custom fields that extend
the contact and company forms. An Express server keeps them in PostgreSQL.
This project models the five files that hold that logic:

- `server/src/db.js`: the schema.
- `server/src/routes/settings.js`: the custom-field registry.
- `server/src/routes/companies.js`, `server/src/routes/contacts.js` and
  `server/src/routes/deals.js`: the CRUD routes.

The model has three layers.

- **Values.** JSON request fields, with JavaScript truthiness (`Json`). The
  slug derivation `toLowerCase` / `replace(/\s+/g, '_')` /
  `replace(/[^a-z0-9_]/g, '')` and `trim` (`Slug`). The checks, display
  order, uniqueness and listing of custom fields (`Registry`). What a create
  or an update writes into a company, contact or deal row, and what each
  listing shows (`Companies`, `Contacts`, `Deals`). The shared rules of the
  tenant tables (`Table`): serial ids, `user_id`, `WHERE id = $1 AND user_id
  = $2`, `ORDER BY created_at DESC`, foreign-key columns, and `ON DELETE
  CASCADE` / `SET NULL`.
- **The database.** `Database.Tables` holds every table as a value.
  `Database.Schema` states what the schema guarantees:
  - ids and stamps increase;
  - every owner is an existing user;
  - `NOT NULL` names and titles;
  - every reference names an existing row;
  - `UNIQUE(user_id, entity_type, slug)`;
  - every custom field is well formed.

  Each route is a function from a database and a request to a reply and a new
  database (`FieldStore`, `CompanyStore`, `ContactStore`, `DealStore`). A
  `...Keeps` lemma next to each proves that the route keeps the schema.
- **The store.** `Store.Crm` is a class whose fields are the tables. It has
  one method per state-changing route, and each method writes its tables step
  by step. Every method keeps `Valid()` (the schema). Its new state and reply
  are proved equal to the route's function on the old state.

Replies follow the handlers: `Created` (201), `Ok` (200), `NoContent` (204),
`BadRequest` (400), `NotFound` (404). `Failed` (500) carries the message of
an error the handler does not catch, which the error middleware turns into a
500. Such errors come from the database's constraints (`NOT NULL`, foreign
key, integer syntax) or are a `TypeError`.

The database reports errors in a fixed order, and the model keeps it:

1. A reference that cannot be read as an integer fails when the statement's
   parameters are bound. That is before any row is matched, so before a 404.
   No serial value is drawn.
2. Then a `NOT NULL` violation.
3. Then a foreign-key violation.

An `INSERT` that reaches execution draws the next serial id even when it
then fails.

Behaviours of the source that the model makes explicit (all are proved):

- A field name made only of white space is accepted. Its slug is `_` and its
  stored name is empty (`Registry.BlankNameAccepted`).
- The fallback `?? 0` for the display order never applies. The order is
  always one more than the group's maximum, or 1 (`Registry.NextOrder`).
- On an update, `name: null` reaches the `NOT NULL` constraint and gives a
  500, not a 400.
- A deal update cannot clear a contact or company link, because of COALESCE
  (`Deals.Patch`).
- Create and update read falsy fields differently:
  - `""` becomes null on a create but is stored as given by an update.
  - A JSON `null` bag becomes `{}` on a create but is stored as null by an
    update.
  - A stage of `""` becomes `lead` on a create but `""` on an update.

## Model

| member | source | states |
|---|---|---|
| Json.Or | server/src/routes/deals.js:25 | `x \|\| d`: a truthy field is kept, anything else gives the default |
| Json.OrNull | server/src/routes/companies.js:26 | `x \|\| null`: the stored value is null exactly when the field is falsy, and truthy otherwise |
| Json.CreateBag | server/src/routes/companies.js:23 | a create stores the request's bag when it is an object, and `{}` otherwise (including JSON null) |
| Json.UpdateBag | server/src/routes/companies.js:40-43 | an update replaces the stored bag when `typeof` says object (JSON null included), and otherwise keeps it |
| Json.UpdateReplacesBag | server/src/routes/contacts.js:42-45 | an object bag replaces the stored one wholesale: a key absent from the new object is gone |
| Json.NullBagAsymmetry | server/src/routes/companies.js:23-43 | JSON null is stored as `{}` by a create but as null by an update; both show `{}` |
| Slug.Derive | server/src/routes/settings.js:33 | a slug holds only `[a-z0-9_]`, so no upper-case letter |
| Slug.DeriveIdempotent | server/src/routes/settings.js:33 | deriving the slug of a slug gives it back |
| Slug.DeriveIgnoresCase | server/src/routes/settings.js:33 | names equal up to ASCII case give the same slug |
| Slug.DeriveSpaceRun | server/src/routes/settings.js:33 | a run of white space gives one `_` whatever its length |
| Slug.DeriveDropsPunctuation | server/src/routes/settings.js:33 | a character that is neither white space nor a slug character (once lower-cased) does not affect the slug, unless it alone separates two runs of white space |
| Slug.JobTitleExample | server/src/routes/settings.js:33 | "Job Title" and "job   title!!" both give `job_title` |
| Slug.DeriveEmpty | server/src/routes/settings.js:33-36 | the slug is empty (400 "Invalid field name") exactly when no character is white space or lower-cases to a slug character |
| Slug.DeriveBlank | server/src/routes/settings.js:33-36 | a non-empty name of white space only gives the slug `_` |
| Slug.Trim | server/src/routes/settings.js:45 | `trim()`: the result is the input without its leading and trailing white space |
| TextOrder.StrLeTotal | server/src/routes/settings.js:14 | the string order of `ORDER BY` compares any two strings |
| TextOrder.StrLeTransitive | server/src/routes/settings.js:14 | the string order is transitive |
| TextOrder.StrLeAntisymmetric | server/src/routes/settings.js:14 | strings that each sort before the other are equal |
| Decimal.Digits | server/src/routes/settings.js:18 | the text of an id in `field_${id}` is non-empty decimal digits with no leading zero |
| Decimal.ParseNat | server/src/db.js:35 | a string is read as an integer id exactly when it is non-empty decimal digits |
| Decimal.ParseDigits | server/src/routes/settings.js:18 | reading back the decimal text of an id gives the id |
| Table.Find | server/src/routes/companies.js:45 | `WHERE id = $1 AND user_id = $2`: the found row has that id and owner; none is found only when no row has both |
| Table.FindFirst | server/src/routes/companies.js:45 | the search returns the first matching row |
| Table.FindOwned | server/src/routes/companies.js:48-50 | a row is found (no 404) exactly when the caller owns a row with that id |
| Table.Lookup | server/src/routes/contacts.js:8 | `ON c.company_id = co.id`: the row with that id, whoever owns it; none exactly when no row has the id |
| Table.FindIsLookup | server/src/routes/contacts.js:8 | with unique ids, the by-id lookup of a row the caller owns is the tenant-scoped search |
| Table.JoinAsWritten | server/src/routes/contacts.js:8 | the join as written gives the linked row of any tenant, and gives one whenever the link names an existing row |
| Table.Join | server/src/routes/contacts.js:8 | the join kept to the caller gives only the caller's linked row, and gives it whenever the caller owns it |
| Table.JoinIsolated | server/src/routes/deals.js:8-12 | a row another tenant adds never changes what the caller's join finds |
| Table.JoinAgrees | server/src/routes/deals.js:8-12 | the two joins agree on links to the caller's own rows |
| Table.Without | server/src/routes/companies.js:57 | `DELETE`: one row fewer, the others unchanged and in order |
| Table.WithoutKeeps | server/src/routes/companies.js:57 | a delete keeps ids increasing and removes exactly the deleted row's id |
| Table.WithoutExactly | server/src/routes/contacts.js:59 | the rows left are exactly those with another id |
| Table.Replace | server/src/routes/companies.js:44-47 | `UPDATE` of one row: same rows, same order, that one with new columns |
| Table.ReplaceKeeps | server/src/routes/companies.js:44-47 | an update keeps the order and the set of ids |
| Table.Disown | server/src/db.js:24 | `ON DELETE CASCADE` from users: exactly the rows of other users remain |
| Table.DisownOrdered | server/src/db.js:24 | the cascade keeps ids and stamps increasing |
| Table.DisownIds | server/src/db.js:24 | the cascade removes exactly the ids the deleted user owned |
| Table.AppendWellFormed | server/src/db.js:23-24 | an insert with the next serial id, for an existing user, keeps the table well formed |
| Table.Newest | server/src/routes/companies.js:8 | `WHERE user_id = $1`: the listing holds the caller's rows and all of them |
| Table.NewestFirst | server/src/routes/companies.js:8 | `ORDER BY created_at DESC`: stamps strictly decrease along the listing |
| Table.Reference | server/src/db.js:35 | a reference value is stored as null, or must name an existing row, and the stored id is the integer the value spells; a value that is not an integer fails with the bind error; an integer is accepted exactly when it names a row, and otherwise is the foreign-key error |
| Registry.FieldType | server/src/routes/settings.js:31-32 | the stored type is always allowed: the requested one if allowed, else `text` |
| Registry.Check | server/src/routes/settings.js:24-36 | the 400s in order: a falsy `entity_type` or `field_name`, an unknown entity type, an empty slug. A truthy non-string name throws (500). Otherwise the draft holds the trimmed name and the derived slug |
| Registry.BlankNameAccepted | server/src/routes/settings.js:25-36 | a white-space-only name passes every check, with slug `_` and an empty stored name |
| Registry.UniqueAppend | server/src/db.js:66 | a row whose triple clashes with none keeps `UNIQUE(user_id, entity_type, slug)` |
| Registry.ClashAppend | server/src/db.js:66 | after an insert, a triple clashes exactly when it clashed before or is the new row's; other tenants and the other entity type are unaffected |
| Registry.MaxOrder | server/src/routes/settings.js:39 | `MAX(display_order)` over the caller's fields of one type: none for an empty group, else an attained upper bound |
| Registry.NextOrder | server/src/routes/settings.js:38-42 | the new order exceeds every order in the group; it is 1 for an empty group and the maximum plus one otherwise |
| Registry.KeyLeTotal | server/src/routes/settings.js:14 | the listing order compares any two fields |
| Registry.KeyLeTransitive | server/src/routes/settings.js:14 | the listing order is transitive |
| Registry.InsertSorted | server/src/routes/settings.js:14 | inserting into a sorted listing keeps it sorted |
| Registry.Sort | server/src/routes/settings.js:14 | the sorted listing is a permutation of its input, ordered by (entity_type, display_order, field_name) |
| Registry.Select | server/src/routes/settings.js:8-13 | the selection holds exactly the caller's rows, of the asked entity type when one is given, each as many times as the table holds it and no others; it is never longer than the table |
| Registry.Fill | server/src/routes/settings.js:16-19 | a listed row has a non-empty slug: the stored one, else one derived from the name, else `field_<id>`; nothing else changes |
| Registry.Listing | server/src/routes/settings.js:6-21 | `GET /custom-fields` is sorted, shows only selected rows, each with a non-empty slug, and is a permutation of the selected rows with their slugs filled in (so each row once, none dropped) |
| Registry.ListingComplete | server/src/routes/settings.js:6-21 | every selected row appears in the listing |
| Registry.ListingSound | server/src/routes/settings.js:6-21 | everything listed is a selected row with its slug filled in |
| Companies.Fresh | server/src/routes/companies.js:18-27 | a falsy name is a 400; otherwise the row holds the name, the website or null, and the bag or `{}` |
| Companies.Patch | server/src/routes/companies.js:35-43 | fields that are not undefined are written as given and the others kept; a null name breaks `NOT NULL` |
| Companies.PatchIdempotent | server/src/routes/companies.js:32-53 | sending the same update twice leaves the row as the first did |
| Companies.PatchNothing | server/src/routes/companies.js:35-43 | an update with no fields and no object bag changes nothing |
| Companies.Listing | server/src/routes/companies.js:6-16 | `GET /companies`: exactly the caller's rows, newest first, with the bag shown as `{}` when null |
| Contacts.Fresh | server/src/routes/contacts.js:18-27 | a falsy name is a 400; a falsy email, phone or company_id is null; a truthy company_id must name a company, or the insert fails, and the stored link is the id the request gave |
| Contacts.Patch | server/src/routes/contacts.js:38-45 | fields that are not undefined are written (null clears the company, any other company_id is stored as the id given); it fails exactly on a null name or a bad company_id, and errors come in bind, `NOT NULL`, foreign-key order: a non-integer company_id is the bind error, else a null name the `NOT NULL` error, else the foreign-key error |
| Contacts.EmptyEmailAsymmetry | server/src/routes/contacts.js:26 | an empty email is stored as null by a create and as `""` by an update |
| Contacts.DetachCompanies | server/src/db.js:35 | `ON DELETE SET NULL`: exactly the links to deleted companies become null and nothing else changes |
| Contacts.DetachCompaniesKeeps | server/src/db.js:35 | after detaching, every contact link names a company that still exists |
| Contacts.ListingAsWritten | server/src/routes/contacts.js:6-16 | the listing as written: only and all of the caller's contacts, newest first, each with its bag shown and the company name of whatever tenant owns the linked id |
| Contacts.Listing | server/src/routes/contacts.js:6-16 | `GET /contacts` with the join kept to the caller: exactly the caller's contacts, newest first, each with its own company's name or null |
| Contacts.CrossTenantLeak | server/src/routes/contacts.js:8 | tenant 1 links a contact to tenant 2's company and sees its name through the listing as written |
| Deals.Links2 | server/src/routes/deals.js:23-26 | with two references, a bind error wins over any foreign-key error, and both must hold for the insert to succeed |
| Deals.Fresh | server/src/routes/deals.js:18-26 | a falsy title is a 400; a falsy value becomes 0 and a falsy stage `lead`; a truthy reference must name a row and is stored as the id given, a falsy one as null |
| Deals.Coalesce | server/src/routes/deals.js:35-37 | `COALESCE($n, col)`: a non-null value replaces the column, null or an omitted field keeps it |
| Deals.CoalesceLink | server/src/routes/deals.js:38-39 | a non-null reference must name a row and becomes the link; otherwise the link is kept |
| Deals.Patch | server/src/routes/deals.js:33-43 | every column is COALESCEd; a non-null reference is stored as the id given; a link, once set, cannot be cleared; only a bad reference fails |
| Deals.PatchNullKeeps | server/src/routes/deals.js:34-40 | an update with all fields null, or all omitted, changes nothing |
| Deals.PatchIdempotent | server/src/routes/deals.js:30-48 | sending the same update twice leaves the deal as the first did |
| Deals.FalsyAsymmetry | server/src/routes/deals.js:25 | `0` and `""` are defaults on create but are written by an update |
| Deals.Detach | server/src/db.js:47-48 | `ON DELETE SET NULL` on both references: exactly the links to deleted rows become null |
| Deals.DetachKeeps | server/src/db.js:47-48 | after detaching, every deal link names a row that still exists |
| Deals.ListingAsWritten | server/src/routes/deals.js:6-16 | the listing as written: only and all of the caller's deals, newest first, with the contact and company names of whatever tenant owns the linked ids |
| Deals.Listing | server/src/routes/deals.js:6-16 | `GET /deals` with both joins kept to the caller: exactly the caller's deals, newest first, with their own contact and company names |
| Deals.CrossTenantLeak | server/src/routes/deals.js:10 | tenant 1 links a deal to tenant 2's contact and sees its name through the listing as written |
| Database.Empty | server/src/db.js:11-67 | the empty database satisfies the schema; every serial starts at 1 |
| Database.DrawKeeps | server/src/db.js:23 | drawing serial values without inserting keeps the schema |
| Database.AddUser | server/src/routes/auth.js:18-21 | sign-up inserts a fresh user id and keeps the schema |
| Database.WithoutUser | server/src/db.js:24-59 | deleting a user removes only that user from the users and changes nothing but the five tables |
| Database.WithoutUserRemoves | server/src/db.js:24-59 | the surviving companies and fields are exactly the other users' rows; the surviving contacts and deals are the other users' rows with links to the removed companies and contacts set to null; no row of the user remains, and no link names a removed row |
| Database.WithoutUserKeeps | server/src/db.js:22-67 | deleting a user, with its cascades and detaches, keeps the schema |
| FieldStore.PostCustomField | server/src/routes/settings.js:23-57 | `POST /custom-fields`: a 400 or 500 from the checks changes nothing; otherwise the next id is drawn and the row is added unless its triple clashes (400) or the owner is gone (500) |
| FieldStore.PostCustomFieldKeeps | server/src/routes/settings.js:43-51 | defining a field keeps the schema, the uniqueness of the triple included |
| FieldStore.InsertFieldKeeps | server/src/db.js:57-67 | inserting a sound field with a fresh triple keeps the schema |
| FieldStore.CheckAccepts | server/src/routes/settings.js:24-36 | a known entity type with a name whose slug is not empty passes the checks |
| FieldStore.DefineTwice | server/src/routes/settings.js:49-51 | defining the same name twice gives a 400 the second time, while the other entity type and another tenant may still use it |
| FieldStore.DeleteCustomField | server/src/routes/settings.js:59-69 | a 404 changes nothing; a 204 removes exactly the caller's field with that id |
| FieldStore.DeleteCustomFieldKeeps | server/src/routes/settings.js:59-69 | deleting a field keeps the schema |
| CompanyStore.PostCompany | server/src/routes/companies.js:18-30 | a 400 changes nothing; otherwise an id is drawn and the row is added for an existing owner |
| CompanyStore.PostCompanyKeeps | server/src/routes/companies.js:18-30 | creating a company keeps the schema |
| CompanyStore.PutCompany | server/src/routes/companies.js:32-53 | a 404 unless the caller owns the id; a null name fails; otherwise that row alone takes the patched columns |
| CompanyStore.PutCompanyKeeps | server/src/routes/companies.js:32-53 | updating a company keeps the schema |
| CompanyStore.DeleteCompany | server/src/routes/companies.js:55-62 | a 204 removes that company and nulls every contact and deal link to it |
| CompanyStore.DeleteCompanyKeeps | server/src/routes/companies.js:55-62 | deleting a company keeps the schema |
| ContactStore.PostContact | server/src/routes/contacts.js:18-30 | a 400 or bind error changes nothing and draws no id; an executed insert draws one; the row is added only when the references hold |
| ContactStore.PostContactKeeps | server/src/routes/contacts.js:18-30 | creating a contact keeps the schema |
| ContactStore.PutContact | server/src/routes/contacts.js:32-55 | a bind error, then a 404, then the patch's own errors; on success that row alone changes |
| ContactStore.PutContactKeeps | server/src/routes/contacts.js:32-55 | updating a contact keeps the schema |
| ContactStore.DeleteContact | server/src/routes/contacts.js:57-64 | a 204 removes that contact and nulls every deal link to it |
| ContactStore.DeleteContactKeeps | server/src/routes/contacts.js:57-64 | deleting a contact keeps the schema |
| DealStore.PostDeal | server/src/routes/deals.js:18-28 | a 400 or bind error changes nothing; an executed insert draws an id; the row is added only when both references hold |
| DealStore.PostDealKeeps | server/src/routes/deals.js:18-28 | creating a deal keeps the schema |
| DealStore.PutDeal | server/src/routes/deals.js:30-48 | a bind error, then a 404, then a foreign-key error; on success that row alone takes the COALESCEd columns |
| DealStore.PutDealKeeps | server/src/routes/deals.js:30-48 | updating a deal keeps the schema |
| DealStore.DeleteDeal | server/src/routes/deals.js:50-57 | a 204 removes exactly the caller's deal with that id |
| DealStore.DeleteDealKeeps | server/src/routes/deals.js:50-57 | deleting a deal keeps the schema |
| Store.Crm.constructor | server/src/db.js:8-76 | a new store is empty and satisfies the schema |
| Store.Crm.AddUser | server/src/routes/auth.js:18-21 | inserts the next user id, keeping the schema |
| Store.Crm.DeleteUser | server/src/db.js:24-59 | the new tables are those of `WithoutUser` (other users' rows survive, links to removed rows become null), schema kept |
| Store.Crm.DefineField | server/src/routes/settings.js:23-57 | runs the checks, draws the id and inserts; the reply and tables are those of `PostCustomField` and the schema holds |
| Store.Crm.RemoveField | server/src/routes/settings.js:59-69 | the reply and tables of `DeleteCustomField`, schema kept |
| Store.Crm.CreateCompany | server/src/routes/companies.js:18-30 | the reply and tables of `PostCompany`, schema kept |
| Store.Crm.UpdateCompany | server/src/routes/companies.js:32-53 | writes each supplied column in turn; the reply and tables of `PutCompany`, schema kept |
| Store.Crm.RemoveCompany | server/src/routes/companies.js:55-62 | the reply and tables of `DeleteCompany`, schema kept |
| Store.Crm.CreateContact | server/src/routes/contacts.js:18-30 | the reply and tables of `PostContact`, schema kept |
| Store.Crm.UpdateContact | server/src/routes/contacts.js:32-55 | writes each supplied column in turn; the reply and tables of `PutContact`, schema kept |
| Store.Crm.RemoveContact | server/src/routes/contacts.js:57-64 | the reply and tables of `DeleteContact`, schema kept |
| Store.Crm.CreateDeal | server/src/routes/deals.js:18-28 | the reply and tables of `PostDeal`, schema kept |
| Store.Crm.UpdateDeal | server/src/routes/deals.js:30-48 | the reply and tables of `PutDeal`, schema kept |
| Store.Crm.RemoveDeal | server/src/routes/deals.js:50-57 | the reply and tables of `DeleteDeal`, schema kept |

## Left out

- Authentication and users:
  - sign-up, login, JWT handling and bcrypt (`server/src/routes/auth.js` beyond the users `INSERT`);
  - the auth middleware: a route's caller is a parameter `user`;
  - `server/src/routes/users.js`.
- The Express app (`server/src/index.js`): CORS, static files, the health endpoint and process start-up. The error middleware is modelled only as the `Failed` reply carrying the error's message.
- The pg connection pool, SSL and the SQL text itself. The model keeps each statement's effect, not its `$n` numbering or how it is assembled.
- Timestamps: `created_at` is a store-wide insertion counter, and `updated_at` is not modelled. Clocks are not part of this model.
- Concurrency: requests are applied one at a time. Two inserts racing past the uniqueness check are not modelled.
- The 42P01 "table not found" reply of `POST /custom-fields`. The model's database always has its tables.
- The users table's own columns (email, password hash, name). A user is its id.
- The client (`client/src/...`) is not part of this model.
- Slug.Derive: white space, `toLowerCase` and `trim` are ASCII only. Unicode white space and non-ASCII case mapping are not modelled.
- TextOrder.StrLe: `ORDER BY` uses plain code-point order, not the database's collation.
- Deals.Fresh: `value` is a JSON value, not a DECIMAL(12, 2). A non-numeric or out-of-range value that the database would refuse is stored as given.
- Column widths: no `VARCHAR(n)` limit of `server/src/db.js` is checked, in any table. A text longer than its column, which the database refuses with a 500, is stored by the model. This covers company, contact and deal names, emails, phones, websites and stages (`VARCHAR(255)` or `VARCHAR(50)`), and a custom field's entity type, field name, slug and field type (`VARCHAR(20)` and `VARCHAR(100)`).
- Companies.Fresh: the text coercion of a non-string name, website, email, phone or stage is not modelled; such values are stored as given. The same holds for Contacts.Fresh and Deals.Fresh.
- Json.Value: numbers are integers only. A fractional number is not modelled: neither a fractional `company_id` or `contact_id`, which the database refuses with a bind error (500), nor a fractional deal `value`, which a DECIMAL column stores.
- Json.Value: bags and fields hold scalars only. Arrays and nested objects are not modelled, and an array sent as `custom_fields` is treated like any other object.
- Table.Reference: a reference is read as an integer only when it is a (necessarily integral) number or a string of plain decimal digits. The database's other accepted spellings (a sign, surrounding blanks) are not modelled. Neither is the 4-byte integer range.
- Store.Crm: path ids are natural numbers. A non-numeric `:id` that the database would refuse with a 500 is not modelled.
- Registry.Check: a `field_name` or derived slug longer than 100 characters is accepted, where the database would answer 500 (see column widths above).
- Registry.Check: an `entity_type` or `field_name` of a non-scalar JSON type (array, object) is not modelled.

## Findings

| source | as written | input that shows it | evidently intended | confidence | as-written member | corrected member |
|---|---|---|---|---|---|---|
| server/src/routes/contacts.js:8 | `LEFT JOIN companies co ON c.company_id = co.id` has no tenant condition. The foreign key (db.js:35) accepts any tenant's company id, so a contact can link to another tenant's company and the listing shows that company's name | tenant 2 owns company 1 "Acme"; tenant 1 posts a contact with `company_id: "1"`; tenant 1's `GET /contacts` shows `company_name: "Acme"` | the join shows only companies the caller owns (`AND co.user_id = $1`), and null otherwise | medium; not executed | Contacts.CrossTenantLeak | Contacts.Listing |
| server/src/routes/deals.js:10-11 | both joins of `GET /deals` match by id alone, and the foreign keys (db.js:47-48) accept any tenant's ids | tenant 2 owns contact 1 "Bob"; tenant 1 posts a deal with `contact_id: "1"`; tenant 1's `GET /deals` shows `contact_name: "Bob"` | both joins keep to the caller's rows | medium; not executed | Deals.CrossTenantLeak | Deals.Listing |

The corrected listings join through `Table.Join`, which only finds the
caller's rows. `Table.JoinIsolated` proves that no other tenant's insert can
change what it finds. `Table.JoinAgrees` proves that on links to the caller's
own rows it gives what the join as written gives. So the correction changes
nothing for a well-behaved tenant.
