/**
 * The contact handlers with validation, pagination and the JSON error
 * envelope. Each handler is an early-exit pipeline: read the request's
 * parameters, check them, decode the body, validate, call the table, and
 * choose a status. The table is shared and changed in place.
 *
 * The outcomes of the libraries a handler calls (the integer parsers, the
 * JSON decoder, the email syntax check, the driver's success or failure) are
 * parameters.
 */
module ContactHandlers {

  import opened Results
  import opened Http
  import opened Models

  /** The page a list request asks for: anything below 1 (a missing or non-numeric value reads as 0) becomes 1. */
  function ClampPage(raw: Atoi): (page: int)
    ensures page >= 1
    ensures raw.AtoiOk? && raw.n >= 1 ==> page == raw.n
    ensures raw.AtoiOk? && raw.n < 1 ==> page == 1
    ensures raw.AtoiSyntaxError? ==> page == 1
    ensures raw.AtoiRangeError? ==> page == if raw.negative then 1 else MaxInt64
  {
    var page := AtoiValue(raw);
    if page < 1 then 1 else page
  }

  /** The page size: anything below 1 becomes 10; there is no upper bound. */
  function ClampLimit(raw: Atoi): (limit: int)
    ensures limit >= 1
    ensures raw.AtoiOk? && raw.n >= 1 ==> limit == raw.n
    ensures raw.AtoiOk? && raw.n < 1 ==> limit == 10
    ensures raw.AtoiSyntaxError? ==> limit == 10
    ensures raw.AtoiRangeError? ==> limit == if raw.negative then 10 else MaxInt64
  {
    var limit := AtoiValue(raw);
    if limit < 1 then 10 else limit
  }

  /** The `{id}` path parameter as the update and delete handlers accept it: a scanned integer above 0. */
  function PathId(raw: Scan): (id: Option<int>)
    ensures id.Some? <==> raw.Scanned? && raw.n > 0
    ensures id.Some? ==> id.value == raw.n
  {
    if raw.ScanError? || raw.n <= 0 then None else Some(raw.n)
  }

  /**
   * GET /contacts: 500 with the envelope when the table reports an error;
   * otherwise 200 with the page of matching rows, as the store returned them.
   * A driver failure after `failAfter` rows is not an error here: the rows
   * read before it are the page, still with 200.
   */
  method GetContacts(db: ContactTable, pageParam: Atoi, limitParam: Atoi, name: string,
                     dbError: bool, failAfter: Option<nat>)
    returns (resp: Response)
    ensures dbError ==> resp == SendError(StatusInternalServerError, "Error fetching contacts")
    ensures !dbError ==> resp.status == StatusOK
    ensures !dbError ==> resp.body == EncodeContacts(Delivered(Query(db.rows, ClampPage(pageParam),
                                                                    ClampLimit(limitParam), name), failAfter))
  {
    var page := AtoiValue(pageParam);
    var limit := AtoiValue(limitParam);
    if page < 1 {
      page := 1;
    }
    if limit < 1 {
      limit := 10;
    }
    var contacts := db.GetContacts(page, limit, name, dbError, failAfter);
    if contacts.Err? {
      return SendError(StatusInternalServerError, "Error fetching contacts");
    }
    resp := Response(StatusOK, EncodeContacts(contacts.value));
  }

  /**
   * POST /contact: a body that does not decode, or a contact that fails
   * validation, is a 400 and the table is not touched; a valid contact is
   * inserted exactly once, 201 on success and 500 on a table error.
   */
  method CreateContact(db: ContactTable, body: Decoded<Contact>, isEmail: string -> bool, dbError: bool)
    returns (resp: Response)
    requires db.Valid()
    modifies db
    ensures db.Valid()
    ensures body.DecodeError? ==> resp == SendError(StatusBadRequest, "Invalid request body") && unchanged(db)
    ensures body.Decoded? && Validate(body.value, isEmail) != [] ==>
              && resp == SendError(StatusBadRequest,
                                   "Invalid contact data: " + ValidationMessage(Validate(body.value, isEmail)))
              && unchanged(db)
    ensures body.Decoded? && Validate(body.value, isEmail) == [] && (dbError || old(db.lastId) == MaxRowId) ==>
              resp == SendError(StatusInternalServerError, "Failed to create contact") && unchanged(db)
    ensures body.Decoded? && Validate(body.value, isEmail) == [] && !dbError && old(db.lastId) < MaxRowId ==>
              && resp == Response(StatusCreated, NoBody)
              && db.lastId == old(db.lastId) + 1
              && db.rows == old(db.rows) + [Contact(db.lastId, body.value.name, body.value.email)]
  {
    if body.DecodeError? {
      return SendError(StatusBadRequest, "Invalid request body");
    }
    var contact := body.value;
    var errs := Validate(contact, isEmail);
    if errs != [] {
      return SendError(StatusBadRequest, "Invalid contact data: " + ValidationMessage(errs));
    }
    var id := db.InsertContact(contact, dbError);
    if id.Err? {
      return SendError(StatusInternalServerError, "Failed to create contact");
    }
    resp := Response(StatusCreated, NoBody);
  }

  /**
   * PUT /contact/{id}: the id is checked before the body is read; the body's
   * own id is replaced by the path id and the body is not validated. A table
   * without that id is left as it is, and the answer is still 200.
   */
  method UpdateContact(db: ContactTable, rawId: Scan, body: Decoded<Contact>, dbError: bool)
    returns (resp: Response)
    requires db.Valid()
    modifies db
    ensures db.Valid()
    ensures PathId(rawId).None? ==> resp == SendError(StatusBadRequest, "Invalid contact ID") && unchanged(db)
    ensures PathId(rawId).Some? && body.DecodeError? ==>
              resp == SendError(StatusBadRequest, "Invalid request body") && unchanged(db)
    ensures PathId(rawId).Some? && body.Decoded? && dbError ==>
              resp == SendError(StatusInternalServerError, "Failed to update contact") && unchanged(db)
    ensures PathId(rawId).Some? && body.Decoded? && !dbError ==>
              && resp == Response(StatusOK, NoBody)
              && db.lastId == old(db.lastId)
              && db.rows == SetById(old(db.rows), rawId.n, body.value.name, body.value.email)
  {
    var contactID := PathId(rawId);
    if contactID.None? {
      return SendError(StatusBadRequest, "Invalid contact ID");
    }
    if body.DecodeError? {
      return SendError(StatusBadRequest, "Invalid request body");
    }
    var contact := body.value.(id := contactID.value);
    var err := db.UpdateContact(contact, dbError);
    if err.Err? {
      return SendError(StatusInternalServerError, "Failed to update contact");
    }
    resp := Response(StatusOK, NoBody);
  }

  /**
   * DELETE /contact/{id}: the same id check as update; 204 whenever the table
   * reports no error, whether or not a row had that id.
   */
  method DeleteContact(db: ContactTable, rawId: Scan, dbError: bool) returns (resp: Response)
    requires db.Valid()
    modifies db
    ensures db.Valid()
    ensures PathId(rawId).None? ==> resp == SendError(StatusBadRequest, "Invalid contact ID") && unchanged(db)
    ensures PathId(rawId).Some? && dbError ==>
              resp == SendError(StatusInternalServerError, "Failed to delete contact") && unchanged(db)
    ensures PathId(rawId).Some? && !dbError ==>
              && resp == Response(StatusNoContent, NoBody)
              && db.lastId == old(db.lastId)
              && db.rows == RemoveId(old(db.rows), rawId.n)
  {
    var contactID := PathId(rawId);
    if contactID.None? {
      return SendError(StatusBadRequest, "Invalid contact ID");
    }
    var err := db.DeleteContact(contactID.value, dbError);
    if err.Err? {
      return SendError(StatusInternalServerError, "Failed to delete contact");
    }
    resp := Response(StatusNoContent, NoBody);
  }

  /**
   * A valid contact posted to a fresh table is created, and a list request
   * without parameters then returns exactly that contact, under id 1.
   */
  method CreateThenList(name: string, email: string, isEmail: string -> bool)
    returns (created: Response, listed: Response)
    requires Validate(Contact(0, name, email), isEmail) == []
    ensures created == Response(StatusCreated, NoBody)
    ensures listed == Response(StatusOK, JsonArray([Contact(1, name, email)]))
  {
    var db := new ContactTable();
    created := CreateContact(db, Decoded(Contact(0, name, email)), isEmail, false);
    listed := GetContacts(db, AtoiSyntaxError, AtoiSyntaxError, "", false, None);
    SelectNoFilter(db.rows);
  }

  /**
   * A contact with a name but no email is refused with 400, the envelope's
   * code 400, and the validator's text for Email's `required` rule, which is
   * `Invalid contact data: Key: 'Contact.Email' Error:Field validation for 'Email' failed on the 'required' tag`;
   * a list request then finds the table empty.
   */
  method CreateMissingEmail(isEmail: string -> bool) returns (created: Response, listed: Response)
    ensures created == SendError(StatusBadRequest,
                                 "Invalid contact data: " + FieldErrorText(FieldError("Email", "required")))
    ensures created.body.code == 400
    ensures listed == Response(StatusOK, JsonNull)
  {
    var db := new ContactTable();
    MissingEmailMessage(isEmail);
    created := CreateContact(db, Decoded(Contact(0, "josh", "")), isEmail, false);
    listed := GetContacts(db, AtoiSyntaxError, AtoiSyntaxError, "", false, None);
  }

  /**
   * Two stored contacts and a driver failure after the first row: the list
   * request still answers 200, with a page of one contact.
   */
  method ListCutShort() returns (listed: Response)
    ensures listed == Response(StatusOK, JsonArray([Contact(1, "Ann Lee", "ann@example.com")]))
  {
    var db := new ContactTable();
    var first := db.InsertContact(Contact(0, "Ann Lee", "ann@example.com"), false);
    var second := db.InsertContact(Contact(0, "Bob Ray", "bob@example.com"), false);
    var stored := [Contact(1, "Ann Lee", "ann@example.com"), Contact(2, "Bob Ray", "bob@example.com")];
    assert db.rows == stored;
    listed := GetContacts(db, AtoiSyntaxError, AtoiSyntaxError, "", false, Some(1));
    SelectNoFilter(stored);
    assert Query(stored, 1, 10, "") == stored;
  }

  /**
   * A stored contact is updated under its path id (the body's id is ignored),
   * then deleted; deleting it a second time still answers 204 and changes nothing.
   */
  method UpdateThenDelete() returns (updated: Response, afterUpdate: seq<Contact>,
                                     deleted: Response, deletedAgain: Response, afterDelete: seq<Contact>)
    ensures updated == Response(StatusOK, NoBody)
    ensures afterUpdate == [Contact(1, "New Name", "new@example.com")]
    ensures deleted == Response(StatusNoContent, NoBody) && deletedAgain == deleted
    ensures afterDelete == []
  {
    var db := new ContactTable();
    var id := db.InsertContact(Contact(0, "Old Name", "old@example.com"), false);
    updated := UpdateContact(db, Scanned(1), Decoded(Contact(7, "New Name", "new@example.com")), false);
    afterUpdate := db.rows;
    deleted := DeleteContact(db, Scanned(1), false);
    deletedAgain := DeleteContact(db, Scanned(1), false);
    afterDelete := db.rows;
  }

  /**
   * The update handler never validates: a stored contact can be overwritten
   * with an empty name and email, which create would have refused.
   */
  method UpdateSkipsValidation(isEmail: string -> bool) returns (updated: Response, afterUpdate: seq<Contact>)
    ensures updated == Response(StatusOK, NoBody)
    ensures afterUpdate == [Contact(1, "", "")]
    ensures Validate(afterUpdate[0], isEmail) != []
  {
    var db := new ContactTable();
    var id := db.InsertContact(Contact(0, "Old Name", "old@example.com"), false);
    updated := UpdateContact(db, Scanned(1), Decoded(Contact(0, "", "")), false);
    afterUpdate := db.rows;
  }
}
