# Blog validation layer — Dafny model

This project models the write-time validation of a small Flask/SQLAlchemy blogging API
with two entities, `Author` and `Post`. It covers:

- the six `@validates` field rules;
- the entity constructors, which those rules gate;
- the table constraints declared beside them: a unique, non-null author name, a non-null
  foreign key from `posts.author_id` to `authors.id`, and the cascade that deletes an
  author's posts along with the author.

Files:

- `values.dfy` (`Values`): `Option` for a field that may be absent (`data.get(key)`),
  `FieldError` (the rule's `ValueError`, or a Python `TypeError`), `Checked` (the outcome of
  one rule) and `Result`.
- `text.dfy` (`Text`): the two string primitives the rules use. The model decides Python's
  substring test `keyword in title` by a left-to-right search (CPython uses a faster
  search with the same result), proved equal to the reference definition "there is an
  index where the keyword occurs". `re.fullmatch(r'\d{n}', s)` is a
  digit-by-digit match, proved equal to "exactly `n` characters, all digits".
- `validators.dfy` (`Validators`): the six rules. Each is a function from an optional
  string to `Accepted(value)` or `Rejected(error)`. Its contract states when it accepts,
  that it returns its input unchanged, and which message it raises. The file also holds the
  boundary cases the rules decide: a blank name passes, an empty phone number fails, an
  empty summary passes, an absent title raises a `TypeError`.
- `models.dfy` (`Models`): the `Author` and `Post` values, the invariants every stored
  entity satisfies, and the two constructors. A constructor succeeds exactly when every
  rule accepts.
- `database.dfy` (`Database`): the `Store` class, which holds the two tables as maps.
  `InsertAuthor` and `InsertPost` build the entity and then commit it, and a failure at
  either step leaves the store unchanged (the rollback). `DeleteAuthor` applies the
  delete-orphan cascade. The class invariant `Valid()` is the list of table invariants:
  unique names, well-formed rows, and every post's author id naming a stored author.

## Model

| member | source | states |
|---|---|---|
| `Text.Contains` | server/models.py:89 | `keyword in title` is true exactly when the keyword occurs at some index of the title |
| `Text.FullMatchDigits` | server/models.py:38 | `re.fullmatch(r'\d{n}', s)` matches exactly when `s` has `n` characters and all are digits |
| `Text.FirstCharOccurs` | server/models.py:89 | a string that contains a keyword contains the keyword's first character |
| `Validators.ValidateName` | server/models.py:24-30 | accepts iff the name is present and non-empty (whitespace counts as content); returns it unchanged; otherwise raises "Author must have a name." |
| `Validators.ValidatePhoneNumber` | server/models.py:32-40 | accepts iff the phone number is absent or exactly ten digits; returns it unchanged; otherwise raises the ten-digits message |
| `Validators.ValidateContent` | server/models.py:63-68 | accepts iff content is present and at least 250 characters long; absent or empty content is rejected |
| `Validators.ValidateSummary` | server/models.py:70-75 | rejects iff the summary is present and longer than 250 characters; absent, empty and short summaries are returned unchanged |
| `Validators.ValidateCategory` | server/models.py:77-82 | accepts iff the category is exactly "Fiction" or "Non-Fiction"; absent is rejected |
| `Validators.AnyKeywordIn` | server/models.py:88-89 | `any(keyword in title ...)` is true iff some listed keyword occurs in the title |
| `Validators.ValidateTitle` | server/models.py:84-91 | a present title is accepted iff it contains one of "Won't Believe", "Secret", "Top", "Guess" (case-sensitive); an absent title raises a TypeError, not the rule's ValueError |
| `Validators.RevalidationIsStable` | server/models.py:24-91 | for every rule, a value it accepts is accepted again, with the same result, when validated a second time |
| `Validators.TitleWithoutInitialsRejected` | server/models.py:88-90 | a title containing none of the letters W, S, T, G is rejected with the title message |
| `Validators.NameBoundaryCases` | server/models.py:28-30 | "   " is a valid name; "" and absent are not |
| `Validators.PhoneBoundaryCases` | server/models.py:35-40 | "5551234567" and absent are valid phone numbers; "", "555123456", "555-123-4567" and "555123456a" are not |
| `Validators.PostBoundaryCases` | server/models.py:66-91 | empty and absent summaries pass; empty and absent content fail; "fiction" and absent categories fail; an absent title is a TypeError |
| `Validators.TitleAccepted` | server/models.py:88-91 | "Top 10 Secrets" is an accepted title |
| `Validators.TitleRejected` | server/models.py:88-90 | "A Nice Day" is a rejected title |
| `Validators.TitleCaseSensitive` | server/models.py:88-90 | "top secret" is rejected: keywords match case-sensitively |
| `Models.NewAuthor` | server/models.py:8-40 | constructing an Author succeeds iff both rules accept, yields the given values, and the author is well formed; a failure carries the error of a rule that rejected |
| `Models.NewPost` | server/models.py:45-91 | constructing a Post succeeds iff the title, content, summary and category rules all accept (author_id is not checked); the post is well formed; a failure carries a rejecting rule's error |
| `Database.WithoutPostsOf` | server/models.py:18 | the cascade empties the deleted author's `posts` relationship and leaves every other author's `posts` exactly as it was |
| `Database.NoOrphanPosts` | server/models.py:57 | in a consistent state, an id that names no stored author owns no posts |
| `Database.CascadeKeepsConsistent` | server/models.py:12-18 | removing an author together with its posts keeps names unique, rows well formed and every remaining author_id resolving |
| `Database.Store.constructor` | server/models.py:8-57 | the store starts with empty tables that satisfy every invariant |
| `Database.Store.InsertAuthor` | server/models.py:12 | a rejected field fails with that field error; a name already stored fails with a uniqueness violation; either failure leaves the store unchanged; otherwise exactly the new author is added under a fresh id and the invariants hold |
| `Database.Store.InsertPost` | server/models.py:57 | a rejected field fails with that field error; an absent author_id or one naming no stored author fails with an integrity violation; either failure leaves the store unchanged; otherwise exactly the new post is added under a fresh id |
| `Database.Store.DeleteAuthor` | server/models.py:18 | removes the author and exactly that author's posts; the other posts are unchanged; no remaining post refers to the deleted author; deleting an unknown id changes neither table; the invariants hold |
| `Database.CreateTwiceWithSameName` | server/models.py:12 | after an author is created, a second author with the same name (and a valid phone number) is refused as a duplicate, and the first author stays stored as created |

## Left out

- HTTP routing, JSON parsing and response building, and the mapping of errors to status
  codes (server/app.py). `Database.WriteError` distinguishes the cases the handlers map:
  - a field `ValueError` and an integrity violation both become 400;
  - the `TypeError` from an absent title falls through to the generic handler and becomes 500.
- Request bodies whose fields are not strings (numbers, lists, objects) or whose
  `author_id` is not an integer. Fields are modelled as optional strings, and `author_id`
  as an optional integer.
- `created_at` and `updated_at`: they come from the database clock.
- Serialization (`SerializerMixin`, `serialize_rules`) and `__repr__`. The serializer lives
  in a library that is not part of this model.
- Sessions, transactions and SQLite itself. A failed write is modelled as leaving the
  store unchanged.
- Database-side checks that the model leaves out or simplifies:
  - SQLite enforces foreign keys only when `PRAGMA foreign_keys` is on. The model
    enforces the declared foreign key on every insert.
  - SQLite picks `max(rowid) + 1` as the new id. The model takes ids from counters that
    never reuse an id.
- Which field's error is reported when several are invalid depends on the order in which
  the library constructor assigns the keyword arguments. The constructors check the fields
  in the order the handlers pass them, but their contracts state only that the error comes
  from one of the rules that rejected.
- The constructors assume every keyword is passed, as both handlers do. A column left out
  of the constructor call would skip its rule; that case is not modelled.
- Python's `\d` matches any Unicode decimal digit. The model accepts only '0' to '9'.
- A Dafny `char` is a Unicode scalar value, so string lengths agree with Python's
  code-point `len`, outside the Basic Multilingual Plane too. A Python string can hold a
  lone surrogate (for example, from a JSON `\ud800` escape) and a Dafny string cannot.
  Such strings are not modelled.
- The `TypeError` message is the one CPython gives for `keyword in None`. It is not
  written in the repository.
- Reading rows by id or listing them (`query.get`, `query.all`) is not modelled as
  operations; the `authors` and `posts` maps are the rows.
- Updating a stored entity is not modelled. No route updates entities, though the rules
  would run on such an assignment too.
