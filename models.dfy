/**
 * The persistence layer of the contact service: the `contacts` table
 * (id INTEGER PRIMARY KEY AUTOINCREMENT, name TEXT, email TEXT), the field
 * rules a contact must satisfy, and the four parameterised statements the
 * service runs against the table.
 *
 * The table is a class whose rows are kept in insertion order; SQLite's
 * AUTOINCREMENT counter for the table is the field `lastId`.
 */
module Models {

  import opened Results

  /** A contact: a row of the table, and also the request body of create and update. */
  datatype Contact = Contact(id: int, name: string, email: string)

  /** Failures the driver can report for a statement. */
  datatype DbError =
    | DriverError  // connectivity, locking or any other failure of the statement
    | TableFull    // SQLITE_FULL: the AUTOINCREMENT counter has reached the largest rowid

  /** The largest rowid SQLite can assign (a signed 64-bit integer). */
  const MaxRowId: int := 0x7FFF_FFFF_FFFF_FFFF

  // ---------------------------------------------------------------------------
  // Validation: `validate:"required,min=3"` on Name, `validate:"required,email"` on Email
  // ---------------------------------------------------------------------------

  /** One failed rule: the struct field and the validator tag that failed on it. */
  datatype FieldError = FieldError(field: string, tag: string)

  /**
   * Name's rules: `required` (not the empty string), then `min=3` (at least three
   * characters); the validator stops at the first rule a field fails.
   */
  function NameErrors(name: string): seq<FieldError>
  {
    if name == "" then [FieldError("Name", "required")]
    else if |name| < 3 then [FieldError("Name", "min")]
    else []
  }

  /** Email's rules: `required`, then `email` (the syntax check, a parameter here). */
  function EmailErrors(email: string, isEmail: string -> bool): seq<FieldError>
  {
    if email == "" then [FieldError("Email", "required")]
    else if !isEmail(email) then [FieldError("Email", "email")]
    else []
  }

  /**
   * `Contact.Validate`: the failed rules in field order; the empty sequence is
   * a nil error. The id carries no rule.
   */
  function Validate(c: Contact, isEmail: string -> bool): (errs: seq<FieldError>)
    ensures errs == [] <==> 3 <= |c.name| && c.email != "" && isEmail(c.email)
    ensures c.name == "" ==> FieldError("Name", "required") in errs
    ensures c.email == "" ==> FieldError("Email", "required") in errs
    ensures forall e | e in errs :: e.field in {"Name", "Email"}
    ensures forall i, j | 0 <= i < j < |errs| :: errs[i].field != errs[j].field
    ensures 0 < |c.name| < 3 ==> FieldError("Name", "min") in errs
    ensures c.email != "" && !isEmail(c.email) ==> FieldError("Email", "email") in errs
    ensures 3 <= |c.name| ==> forall e | e in errs :: e.field != "Name"
    ensures c.email != "" && isEmail(c.email) ==> forall e | e in errs :: e.field != "Email"
    ensures |errs| == 2 ==> errs[0].field == "Name"
    ensures |errs| <= 2
  {
    NameErrors(c.name) + EmailErrors(c.email, isEmail)
  }

  /** The text of one field error in the validator's format. */
  function FieldErrorText(e: FieldError): string
  {
    "Key: 'Contact." + e.field + "' Error:Field validation for '" + e.field
    + "' failed on the '" + e.tag + "' tag"
  }

  /** `ValidationErrors.Error()`: the field errors' texts, one per line. */
  function ValidationMessage(errs: seq<FieldError>): (m: string)
    ensures m == "" <==> errs == []
    ensures errs != [] ==> FieldErrorText(errs[0]) <= m
    ensures |errs| == 1 ==> m == FieldErrorText(errs[0])
    ensures |errs| == 2 ==> m == FieldErrorText(errs[0]) + "\n" + FieldErrorText(errs[1])
  {
    if |errs| == 0 then ""
    else if |errs| == 1 then FieldErrorText(errs[0])
    else FieldErrorText(errs[0]) + "\n" + ValidationMessage(errs[1..])
  }

  /**
   * A contact with a four-letter name and no email fails on exactly one rule,
   * Email's `required`, and the message is that one field error's text, which
   * spelled out reads
   * `Key: 'Contact.Email' Error:Field validation for 'Email' failed on the 'required' tag`.
   */
  lemma MissingEmailMessage(isEmail: string -> bool)
    ensures Validate(Contact(0, "josh", ""), isEmail) == [FieldError("Email", "required")]
    ensures ValidationMessage(Validate(Contact(0, "josh", ""), isEmail))
         == FieldErrorText(FieldError("Email", "required"))
  {
    assert NameErrors("josh") == [];
  }

  // ---------------------------------------------------------------------------
  // The name filter: `name LIKE '%' || filter || '%'`
  // ---------------------------------------------------------------------------

  /** SQLite's LIKE folds ASCII letters only. */
  function LowerAscii(ch: char): char
  {
    if 'A' <= ch <= 'Z' then (ch as int + 32) as char else ch
  }

  function Fold(s: string): (f: string)
    ensures |f| == |s|
  {
    seq(|s|, i requires 0 <= i < |s| => LowerAscii(s[i]))
  }

  /** `t` occurs in `s` starting at position `i`. */
  predicate OccursAt(s: string, t: string, i: nat)
  {
    i + |t| <= |s| && s[i..i + |t|] == t
  }

  /** `t` occurs as a contiguous run of characters in `s`. */
  predicate Contains(s: string, t: string)
  {
    exists i: nat | i <= |s| :: OccursAt(s, t, i)
  }

  /** `name LIKE '%filter%'`: the filter occurs in the name, ignoring ASCII case. */
  function Like(name: string, filter: string): (b: bool)
    ensures b ==> |filter| <= |name|
    ensures filter == "" ==> b
    ensures Fold(filter) == Fold(name) ==> b
  {
    assert filter == "" || Fold(filter) == Fold(name) ==> OccursAt(Fold(name), Fold(filter), 0);
    Contains(Fold(name), Fold(filter))
  }

  /** The WHERE clause: none at all for an empty filter. */
  function Matches(c: Contact, filter: string): (m: bool)
    ensures filter == "" ==> m
    ensures m && filter != "" ==> |filter| <= |c.name|
    ensures Fold(filter) == Fold(c.name) ==> m
  {
    filter == "" || Like(c.name, filter)
  }

  /** The rows the (possibly filtered) SELECT visits, in table order. */
  function Select(rows: seq<Contact>, filter: string): (r: seq<Contact>)
    ensures |r| <= |rows|
    ensures forall c :: c in r <==> c in rows && Matches(c, filter)
  {
    if rows == [] then []
    else
      var last := rows[|rows| - 1];
      Select(rows[..|rows| - 1], filter) + (if Matches(last, filter) then [last] else [])
  }

  /** An empty filter selects every row, in order. */
  lemma {:induction false} SelectNoFilter(rows: seq<Contact>)
    ensures Select(rows, "") == rows
  {
    if rows != [] {
      SelectNoFilter(rows[..|rows| - 1]);
    }
  }

  /** Selecting from a concatenation selects from each part. */
  lemma {:induction false} SelectAppend(a: seq<Contact>, b: seq<Contact>, filter: string)
    ensures Select(a + b, filter) == Select(a, filter) + Select(b, filter)
  {
    if b == [] {
      assert a + b == a;
    } else {
      var b' := b[..|b| - 1];
      assert (a + b)[..|a + b| - 1] == a + b';
      SelectAppend(a, b', filter);
    }
  }

  // ---------------------------------------------------------------------------
  // LIMIT ? OFFSET ?
  // ---------------------------------------------------------------------------

  /**
   * `LIMIT limit OFFSET offset` over `s`, as SQLite evaluates it: a negative
   * offset counts as zero and a negative limit sets no bound.
   */
  function Window<T>(s: seq<T>, offset: int, limit: int): (w: seq<T>)
    ensures limit >= 0 ==> |w| <= limit
    ensures forall k | 0 <= k < |w| :: Skip(offset) + k < |s| && w[k] == s[Skip(offset) + k]
    ensures (limit < 0 || |w| < limit) ==> |w| == if Skip(offset) <= |s| then |s| - Skip(offset) else 0
  {
    var off := Skip(offset);
    if off >= |s| then []
    else if limit < 0 || off + limit >= |s| then s[off..]
    else s[off..off + limit]
  }

  /** The number of rows OFFSET skips. */
  function Skip(offset: int): nat
  {
    if offset < 0 then 0 else offset
  }

  /** Extending a window that is not yet full by one more candidate row. */
  lemma WindowSnoc<T>(s: seq<T>, x: T, offset: int, limit: int)
    requires limit < 0 || |Window(s, offset, limit)| < limit
    ensures Window(s + [x], offset, limit)
         == Window(s, offset, limit) + (if |s| >= Skip(offset) then [x] else [])
  {
    var off := Skip(offset);
    if |s| >= off {
      assert (s + [x])[off..] == s[off..] + [x];
    }
  }

  /** Once the window holds `limit` rows, later rows do not change it. */
  lemma WindowFull<T>(s: seq<T>, t: seq<T>, offset: int, limit: int)
    requires limit >= 0 && |Window(s, offset, limit)| == limit
    ensures Window(s + t, offset, limit) == Window(s, offset, limit)
  {
    var off := Skip(offset);
    if limit > 0 {
      assert (s + t)[off..off + limit] == s[off..off + limit];
    }
  }

  /**
   * Extending the candidate rows never changes a window's first rows: a
   * window of `s` is a prefix of the same window of `s + t`.
   */
  lemma WindowPrefix<T>(s: seq<T>, t: seq<T>, offset: int, limit: int)
    ensures |Window(s, offset, limit)| <= |Window(s + t, offset, limit)|
    ensures Window(s + t, offset, limit)[..|Window(s, offset, limit)|] == Window(s, offset, limit)
  {
  }

  /**
   * The rows a cursor hands over when the driver fails after `cutoff` of
   * them: a prefix of `s`, all of it when there is no failure.
   */
  function Delivered<T>(s: seq<T>, cutoff: Option<nat>): (d: seq<T>)
    ensures |d| <= |s| && d == s[..|d|]
    ensures cutoff.None? ==> d == s
    ensures cutoff.Some? ==> |d| == if cutoff.value < |s| then cutoff.value else |s|
  {
    if cutoff.Some? && cutoff.value < |s| then s[..cutoff.value] else s
  }

  /**
   * What `GetContacts(db, page, limit, name)` asks SQLite for: the rows whose
   * name matches, skipping `(page-1)*limit` of them and keeping at most `limit`.
   */
  function Query(rows: seq<Contact>, page: int, limit: int, filter: string): (q: seq<Contact>)
    ensures limit >= 0 ==> |q| <= limit
    ensures forall c | c in q :: c in rows && Matches(c, filter)
  {
    Window(Select(rows, filter), (page - 1) * limit, limit)
  }

  /**
   * A page of the query holds at most `limit` rows, each a stored row that
   * matches the filter, and is short only when the matching rows run out.
   */
  lemma QueryPage(rows: seq<Contact>, page: int, limit: int, filter: string)
    requires page >= 1 && limit >= 1
    ensures |Query(rows, page, limit, filter)| <= limit
    ensures forall c | c in Query(rows, page, limit, filter) :: c in rows && Matches(c, filter)
    ensures |Query(rows, page, limit, filter)| < limit
        ==> |Select(rows, filter)| <= (page - 1) * limit + |Query(rows, page, limit, filter)|
  {
    var off := (page - 1) * limit;
    MulNonneg(page - 1, limit);
    assert Skip(off) == off;
  }

  /** With no filter and no limit, the query returns the whole table in order. */
  lemma QueryAll(rows: seq<Contact>)
    ensures Query(rows, 1, -1, "") == rows
  {
    SelectNoFilter(rows);
  }

  /** A page is empty exactly when it starts at or past the last matching row. */
  lemma QueryBeyondEnd(rows: seq<Contact>, page: int, limit: int, filter: string)
    requires page >= 1 && limit >= 1
    ensures Query(rows, page, limit, filter) == [] <==> (page - 1) * limit >= |Select(rows, filter)|
    ensures (page - 1) * limit < |Select(rows, filter)| ==>
              Query(rows, page, limit, filter)[0] == Select(rows, filter)[(page - 1) * limit]
  {
    var off := (page - 1) * limit;
    MulNonneg(page - 1, limit);
    assert Skip(off) == off;
  }

  lemma MulNonneg(a: nat, b: nat)
    ensures a * b >= 0
  {
  }

  /** Go's 64-bit `int` arithmetic: the exact result wrapped around into [-2^63, 2^63). */
  function WrapInt64(x: int): (w: int)
    ensures -0x8000_0000_0000_0000 <= w <= 0x7FFF_FFFF_FFFF_FFFF
    ensures (w - x) % 0x1_0000_0000_0000_0000 == 0
    ensures -0x8000_0000_0000_0000 <= x <= 0x7FFF_FFFF_FFFF_FFFF ==> w == x
  {
    var m := x % 0x1_0000_0000_0000_0000;
    if m > 0x7FFF_FFFF_FFFF_FFFF then m - 0x1_0000_0000_0000_0000 else m
  }

  /** `offset := (page - 1) * limit` as the source computes it, in a 64-bit `int`. */
  function OffsetAsWritten(page: int, limit: int): (o: int)
    ensures -0x8000_0000_0000_0000 <= o <= 0x7FFF_FFFF_FFFF_FFFF
    ensures -0x8000_0000_0000_0000 <= (page - 1) * limit <= 0x7FFF_FFFF_FFFF_FFFF ==> o == (page - 1) * limit
  {
    WrapInt64((page - 1) * limit)
  }

  /**
   * With the largest page number and ten rows a page, the offset the source
   * computes wraps around to -20, which SQLite reads as no offset at all: the
   * request gets the first page, where the exact offset gives an empty one.
   */
  lemma OffsetOverflowReturnsFirstPage(rows: seq<Contact>)
    requires rows != [] && |rows| <= MaxRowId
    ensures OffsetAsWritten(MaxRowId, 10) == -20
    ensures Window(Select(rows, ""), OffsetAsWritten(MaxRowId, 10), 10) == Window(rows, 0, 10)
    ensures Window(rows, 0, 10) != []
    ensures Query(rows, MaxRowId, 10, "") == []
  {
    OffsetWraps();
    SelectNoFilter(rows);
    QueryBeyondEnd(rows, MaxRowId, 10, "");
  }

  lemma OffsetWraps()
    ensures OffsetAsWritten(MaxRowId, 10) == -20
  {
    var exact := (MaxRowId - 1) * 10;
    assert exact == 92_233_720_368_547_758_060;
    assert exact == 5 * 0x1_0000_0000_0000_0000 - 20;
    assert exact % 0x1_0000_0000_0000_0000 == 0x1_0000_0000_0000_0000 - 20;
  }

  // ---------------------------------------------------------------------------
  // UPDATE and DELETE, as functions on the rows
  // ---------------------------------------------------------------------------

  /** `UPDATE contacts SET name = ?, email = ? WHERE id = ?` */
  function SetById(rows: seq<Contact>, id: int, name: string, email: string): (r: seq<Contact>)
    ensures |r| == |rows|
    ensures forall i | 0 <= i < |r| :: r[i].id == rows[i].id
    ensures forall i | 0 <= i < |r| && rows[i].id != id :: r[i] == rows[i]
    ensures forall i | 0 <= i < |r| && rows[i].id == id :: r[i].name == name && r[i].email == email
  {
    if rows == [] then []
    else
      var head := if rows[0].id == id then Contact(id, name, email) else rows[0];
      [head] + SetById(rows[1..], id, name, email)
  }

  /** `DELETE FROM contacts WHERE id = ?` */
  function RemoveId(rows: seq<Contact>, id: int): (r: seq<Contact>)
    ensures |r| <= |rows|
    ensures forall c :: c in r <==> c in rows && c.id != id
  {
    if rows == [] then []
    else (if rows[0].id == id then [] else [rows[0]]) + RemoveId(rows[1..], id)
  }

  predicate HasId(rows: seq<Contact>, id: int)
  {
    exists c :: c in rows && c.id == id
  }

  /** Ids appear in strictly increasing order (so each id at most once). */
  ghost predicate IdsIncreasing(rows: seq<Contact>)
  {
    forall i, j | 0 <= i < j < |rows| :: rows[i].id < rows[j].id
  }

  /** The row a lookup by id finds, if any. */
  function Find(rows: seq<Contact>, id: int): Option<Contact>
  {
    if rows == [] then None
    else if rows[0].id == id then Some(rows[0])
    else Find(rows[1..], id)
  }

  /** After an update, a lookup of that id finds the new name and email; every other id is found as before. */
  lemma {:induction false} FindAfterSet(rows: seq<Contact>, id: int, name: string, email: string, other: int)
    ensures Find(SetById(rows, id, name, email), id)
         == if HasId(rows, id) then Some(Contact(id, name, email)) else None
    ensures other != id ==> Find(SetById(rows, id, name, email), other) == Find(rows, other)
  {
    if rows != [] {
      FindAfterSet(rows[1..], id, name, email, other);
      if !HasId(rows, id) {
        assert !HasId(rows[1..], id) by {
          forall c | c in rows[1..] ensures c.id != id { assert c in rows; }
        }
      } else if rows[0].id != id {
        var c :| c in rows && c.id == id;
        assert c in rows[1..];
      }
    }
  }

  /** An update of an id no row has leaves the rows as they are. */
  lemma SetByIdMissing(rows: seq<Contact>, id: int, name: string, email: string)
    requires !HasId(rows, id)
    ensures SetById(rows, id, name, email) == rows
  {
  }

  /** Deleting an id no row has leaves the rows as they are. */
  lemma {:induction false} RemoveIdMissing(rows: seq<Contact>, id: int)
    requires !HasId(rows, id)
    ensures RemoveId(rows, id) == rows
  {
    if rows != [] {
      assert rows[0] in rows;
      assert !HasId(rows[1..], id) by {
        forall c | c in rows[1..] ensures c.id != id { assert c in rows; }
      }
      RemoveIdMissing(rows[1..], id);
    }
  }

  /** Deleting the same id twice is deleting it once. */
  lemma RemoveIdIdempotent(rows: seq<Contact>, id: int)
    ensures RemoveId(RemoveId(rows, id), id) == RemoveId(rows, id)
  {
    RemoveIdMissing(RemoveId(rows, id), id);
  }

  /**
   * On rows with strictly increasing ids, as `ContactTable.Valid()` keeps
   * them, deleting a present id removes exactly one row.
   */
  lemma {:induction false} RemoveIdCount(rows: seq<Contact>, id: int)
    requires IdsIncreasing(rows)
    ensures |RemoveId(rows, id)| == if HasId(rows, id) then |rows| - 1 else |rows|
  {
    if rows == [] {
    } else if rows[0].id == id {
      assert !HasId(rows[1..], id) by {
        forall c | c in rows[1..] ensures c.id != id {
          var k :| 0 <= k < |rows[1..]| && rows[1..][k] == c;
          assert rows[k + 1] == c;
        }
      }
      RemoveIdMissing(rows[1..], id);
    } else {
      assert HasId(rows, id) <==> HasId(rows[1..], id) by {
        if HasId(rows, id) {
          var c :| c in rows && c.id == id;
          assert c in rows[1..];
        }
        if HasId(rows[1..], id) {
          var c :| c in rows[1..] && c.id == id;
          assert c in rows;
        }
      }
      RemoveIdCount(rows[1..], id);
    }
  }

  /** A row placed before rows with larger ids keeps the ids increasing. */
  lemma ConsIncreasing(x: Contact, rows: seq<Contact>)
    requires IdsIncreasing(rows)
    requires forall c | c in rows :: x.id < c.id
    ensures IdsIncreasing([x] + rows)
  {
    var r := [x] + rows;
    forall i, j | 0 <= i < j < |r| ensures r[i].id < r[j].id {
      assert r[j] == rows[j - 1];
      if i > 0 {
        assert r[i] == rows[i - 1];
      }
    }
  }

  /** Deleting keeps the remaining rows in their order, so ids stay increasing. */
  lemma {:induction false} RemoveIdIncreasing(rows: seq<Contact>, id: int)
    requires IdsIncreasing(rows)
    ensures IdsIncreasing(RemoveId(rows, id))
  {
    if rows != [] {
      var tail := rows[1..];
      assert IdsIncreasing(tail) by {
        forall i, j | 0 <= i < j < |tail| ensures tail[i].id < tail[j].id {
          assert tail[i] == rows[i + 1] && tail[j] == rows[j + 1];
        }
      }
      RemoveIdIncreasing(tail, id);
      var rest := RemoveId(tail, id);
      if rows[0].id != id {
        forall c | c in rest ensures rows[0].id < c.id {
          var k :| 0 <= k < |tail| && tail[k] == c;
          assert rows[k + 1] == c;
        }
        ConsIncreasing(rows[0], rest);
      } else {
        assert RemoveId(rows, id) == rest;
      }
    }
  }

  /** One more row of the table passed by the cursor. */
  lemma SelectSnoc(rows: seq<Contact>, x: Contact, filter: string)
    ensures Select(rows + [x], filter) == Select(rows, filter) + (if Matches(x, filter) then [x] else [])
  {
    assert (rows + [x])[..|rows|] == rows;
  }

  /** The cursor moves past row `i` while the page is not yet full. */
  lemma CursorStep(rows: seq<Contact>, i: nat, filter: string, offset: int, limit: int)
    requires i < |rows|
    requires limit < 0 || |Window(Select(rows[..i], filter), offset, limit)| < limit
    ensures |Select(rows[..i + 1], filter)|
         == |Select(rows[..i], filter)| + (if Matches(rows[i], filter) then 1 else 0)
    ensures Window(Select(rows[..i + 1], filter), offset, limit)
         == Window(Select(rows[..i], filter), offset, limit)
            + (if Matches(rows[i], filter) && |Select(rows[..i], filter)| >= Skip(offset)
               then [rows[i]] else [])
  {
    assert rows[..i + 1] == rows[..i] + [rows[i]];
    SelectSnoc(rows[..i], rows[i], filter);
    if Matches(rows[i], filter) {
      WindowSnoc(Select(rows[..i], filter), rows[i], offset, limit);
    }
  }

  /** The cursor stops at the end of the table or once the page is full: the page is the query's. */
  lemma CursorDone(rows: seq<Contact>, i: nat, filter: string, page: int, limit: int)
    requires i <= |rows|
    requires i == |rows|
          || (limit >= 0 && |Window(Select(rows[..i], filter), (page - 1) * limit, limit)| == limit)
    ensures Window(Select(rows[..i], filter), (page - 1) * limit, limit) == Query(rows, page, limit, filter)
  {
    assert rows == rows[..i] + rows[i..];
    SelectAppend(rows[..i], rows[i..], filter);
    if i < |rows| {
      WindowFull(Select(rows[..i], filter), Select(rows[i..], filter), (page - 1) * limit, limit);
    } else {
      assert rows[..i] == rows;
    }
  }

  /** Wherever the cursor stops, the rows collected so far begin the query's page. */
  lemma CursorPrefix(rows: seq<Contact>, i: nat, filter: string, page: int, limit: int)
    requires i <= |rows|
    ensures |Window(Select(rows[..i], filter), (page - 1) * limit, limit)| <= |Query(rows, page, limit, filter)|
    ensures Query(rows, page, limit, filter)[..|Window(Select(rows[..i], filter), (page - 1) * limit, limit)|]
         == Window(Select(rows[..i], filter), (page - 1) * limit, limit)
  {
    assert rows == rows[..i] + rows[i..];
    SelectAppend(rows[..i], rows[i..], filter);
    WindowPrefix(Select(rows[..i], filter), Select(rows[i..], filter), (page - 1) * limit, limit);
  }

  /**
   * The cursor stops at the end of the table, once the page is full, or when
   * the driver fails after `cut` rows: the rows collected are what the
   * failure lets through of the query's page.
   */
  lemma CursorStop(rows: seq<Contact>, i: nat, filter: string, page: int, limit: int, cut: Option<nat>)
    requires i <= |rows|
    requires cut.Some? ==> |Window(Select(rows[..i], filter), (page - 1) * limit, limit)| <= cut.value
    requires || i == |rows|
             || (limit >= 0 && |Window(Select(rows[..i], filter), (page - 1) * limit, limit)| >= limit)
             || (cut.Some? && |Window(Select(rows[..i], filter), (page - 1) * limit, limit)| >= cut.value)
    ensures Window(Select(rows[..i], filter), (page - 1) * limit, limit)
         == Delivered(Query(rows, page, limit, filter), cut)
  {
    var w := Window(Select(rows[..i], filter), (page - 1) * limit, limit);
    CursorPrefix(rows, i, filter, page, limit);
    if i == |rows| || (limit >= 0 && |w| >= limit) {
      CursorDone(rows, i, filter, page, limit);
    }
  }

  // ---------------------------------------------------------------------------
  // The table
  // ---------------------------------------------------------------------------

  class ContactTable {
    /** The rows, in insertion order. */
    var rows: seq<Contact>
    /** The AUTOINCREMENT counter: the largest id ever assigned, 0 before the first insert. */
    var lastId: int

    ghost predicate Valid()
      reads this
    {
      && 0 <= lastId <= MaxRowId
      && IdsIncreasing(rows)
      && (forall i | 0 <= i < |rows| :: 1 <= rows[i].id <= lastId)
    }

    /** The table as `CreateTable` leaves a fresh database: no rows, no id assigned yet. */
    constructor ()
      ensures Valid()
      ensures rows == [] && lastId == 0
    {
      rows := [];
      lastId := 0;
    }

    /**
     * `InsertContact`: stores the name and email under the next id, which is
     * larger than any id the table has ever assigned; the contact's own id is
     * ignored. Returns that id.
     */
    method InsertContact(c: Contact, dbError: bool) returns (r: Result<int, DbError>)
      requires Valid()
      modifies this
      ensures Valid()
      ensures r.Ok? <==> !dbError && old(lastId) < MaxRowId
      ensures r.Err? ==> unchanged(this)
      ensures !dbError && old(lastId) == MaxRowId ==> r == Err(TableFull)
      ensures r.Ok? ==> && r.value == old(lastId) + 1 == lastId
                        && rows == old(rows) + [Contact(r.value, c.name, c.email)]
                        && (forall i | 0 <= i < |old(rows)| :: old(rows)[i].id < r.value)
    {
      if dbError {
        return Err(DriverError);
      }
      if lastId == MaxRowId {
        return Err(TableFull);
      }
      lastId := lastId + 1;
      rows := rows + [Contact(lastId, c.name, c.email)];
      r := Ok(lastId);
    }

    /**
     * `GetContacts`: walks the table as the cursor does, keeping the rows that
     * match the filter, skipping the first `(page-1)*limit` of them and
     * stopping after `limit`.
     *
     * `failAfter` is a driver failure in the middle of the iteration, after
     * that many rows were handed over: `rows.Next` then answers false and the
     * failure is left in `rows.Err()`, which is never read, so the rows read so
     * far come back as a success.
     */
    method GetContacts(page: int, limit: int, name: string, dbError: bool, failAfter: Option<nat>)
      returns (r: Result<seq<Contact>, DbError>)
      ensures r.Ok? <==> !dbError
      ensures r.Ok? ==> r.value == Delivered(Query(rows, page, limit, name), failAfter)
      ensures r.Ok? && failAfter.None? ==> r.value == Query(rows, page, limit, name)
    {
      if dbError {
        return Err(DriverError);
      }
      var offset := (page - 1) * limit;
      var contacts: seq<Contact> := [];
      var matched := 0;
      var i := 0;
      while i < |rows| && (limit < 0 || |contacts| < limit)
                       && (failAfter.None? || |contacts| < failAfter.value)
        invariant 0 <= i <= |rows|
        invariant matched == |Select(rows[..i], name)|
        invariant contacts == Window(Select(rows[..i], name), offset, limit)
        invariant failAfter.Some? ==> |contacts| <= failAfter.value
      {
        CursorStep(rows, i, name, offset, limit);
        if Matches(rows[i], name) {
          if matched >= Skip(offset) {
            contacts := contacts + [rows[i]];
          }
          matched := matched + 1;
        }
        i := i + 1;
      }
      CursorStop(rows, i, name, page, limit, failAfter);
      r := Ok(contacts);
    }

    /**
     * `UpdateContact`: overwrites name and email of the row whose id is `c.id`.
     * No row with that id is not an error: nothing changes.
     */
    method UpdateContact(c: Contact, dbError: bool) returns (r: Result<(), DbError>)
      requires Valid()
      modifies this
      ensures Valid()
      ensures r.Ok? <==> !dbError
      ensures r.Err? ==> unchanged(this)
      ensures lastId == old(lastId)
      ensures rows == if dbError then old(rows) else SetById(old(rows), c.id, c.name, c.email)
    {
      if dbError {
        return Err(DriverError);
      }
      rows := SetById(rows, c.id, c.name, c.email);
      r := Ok(());
    }

    /**
     * `DeleteContact`: removes the row with that id. No row with that id is not
     * an error: nothing changes.
     */
    method DeleteContact(id: int, dbError: bool) returns (r: Result<(), DbError>)
      requires Valid()
      modifies this
      ensures Valid()
      ensures r.Ok? <==> !dbError
      ensures r.Err? ==> unchanged(this)
      ensures lastId == old(lastId)
      ensures rows == if dbError then old(rows) else RemoveId(old(rows), id)
    {
      if dbError {
        return Err(DriverError);
      }
      RemoveIdIncreasing(rows, id);
      ghost var before := rows;
      rows := RemoveId(rows, id);
      forall i | 0 <= i < |rows| ensures 1 <= rows[i].id <= lastId {
        assert rows[i] in before;
      }
      r := Ok(());
    }
  }
}
