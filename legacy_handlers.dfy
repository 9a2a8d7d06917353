/**
 * The older variant of the contact handlers: no validation, no pagination or
 * filter, and errors written as plain text by `http.Error` instead of the
 * JSON envelope. The path id check and the choice of status are the same as
 * in the newer variant.
 *
 * Its list handler calls a one-argument `GetContacts(db)` that the table code
 * does not define; it is read here as the query without filter, limit or
 * offset, which is the table's `GetContacts` at page 1 with a negative
 * (unbounded) limit and an empty filter.
 */
module LegacyHandlers {

  import opened Results
  import opened Http
  import opened Models
  import ContactHandlers

  /**
   * GET /contacts: every row of the table, or 500 in plain text on a table
   * error; a driver failure after `failAfter` rows lists the rows read before it.
   */
  method GetContacts(db: ContactTable, dbError: bool, failAfter: Option<nat>) returns (resp: Response)
    ensures dbError ==> resp == PlainError(StatusInternalServerError, "Error fetching contacts")
    ensures !dbError ==> resp == Response(StatusOK, EncodeContacts(Delivered(db.rows, failAfter)))
  {
    var contacts := db.GetContacts(1, -1, "", dbError, failAfter);
    if contacts.Err? {
      return PlainError(StatusInternalServerError, "Error fetching contacts");
    }
    QueryAll(db.rows);
    resp := Response(StatusOK, EncodeContacts(contacts.value));
  }

  /**
   * POST /contact: any body that decodes is inserted, whatever its name and
   * email (even empty ones): 201 on success, 500 on a table error.
   */
  method CreateContact(db: ContactTable, body: Decoded<Contact>, dbError: bool) returns (resp: Response)
    requires db.Valid()
    modifies db
    ensures db.Valid()
    ensures body.DecodeError? ==> resp == PlainError(StatusBadRequest, "Invalid request body") && unchanged(db)
    ensures body.Decoded? && (dbError || old(db.lastId) == MaxRowId) ==>
              resp == PlainError(StatusInternalServerError, "Failed to create contact") && unchanged(db)
    ensures body.Decoded? && !dbError && old(db.lastId) < MaxRowId ==>
              && resp == Response(StatusCreated, NoBody)
              && db.lastId == old(db.lastId) + 1
              && db.rows == old(db.rows) + [Contact(db.lastId, body.value.name, body.value.email)]
  {
    if body.DecodeError? {
      return PlainError(StatusBadRequest, "Invalid request body");
    }
    var id := db.InsertContact(body.value, dbError);
    if id.Err? {
      return PlainError(StatusInternalServerError, "Failed to create contact");
    }
    resp := Response(StatusCreated, NoBody);
  }

  /**
   * PUT /contact/{id}: the id is checked before the body is read; the path id
   * replaces the body's id; 200 whenever the table reports no error.
   */
  method UpdateContact(db: ContactTable, rawId: Scan, body: Decoded<Contact>, dbError: bool)
    returns (resp: Response)
    requires db.Valid()
    modifies db
    ensures db.Valid()
    ensures ContactHandlers.PathId(rawId).None? ==>
              resp == PlainError(StatusBadRequest, "Invalid contact ID") && unchanged(db)
    ensures ContactHandlers.PathId(rawId).Some? && body.DecodeError? ==>
              resp == PlainError(StatusBadRequest, "Invalid request body") && unchanged(db)
    ensures ContactHandlers.PathId(rawId).Some? && body.Decoded? && dbError ==>
              resp == PlainError(StatusInternalServerError, "Failed to update contact") && unchanged(db)
    ensures ContactHandlers.PathId(rawId).Some? && body.Decoded? && !dbError ==>
              && resp == Response(StatusOK, NoBody)
              && db.lastId == old(db.lastId)
              && db.rows == SetById(old(db.rows), rawId.n, body.value.name, body.value.email)
  {
    var contactID := ContactHandlers.PathId(rawId);
    if contactID.None? {
      return PlainError(StatusBadRequest, "Invalid contact ID");
    }
    if body.DecodeError? {
      return PlainError(StatusBadRequest, "Invalid request body");
    }
    var contact := body.value.(id := contactID.value);
    var err := db.UpdateContact(contact, dbError);
    if err.Err? {
      return PlainError(StatusInternalServerError, "Failed to update contact");
    }
    resp := Response(StatusOK, NoBody);
  }

  /** DELETE /contact/{id}: the same id check; 204 whenever the table reports no error. */
  method DeleteContact(db: ContactTable, rawId: Scan, dbError: bool) returns (resp: Response)
    requires db.Valid()
    modifies db
    ensures db.Valid()
    ensures ContactHandlers.PathId(rawId).None? ==>
              resp == PlainError(StatusBadRequest, "Invalid contact ID") && unchanged(db)
    ensures ContactHandlers.PathId(rawId).Some? && dbError ==>
              resp == PlainError(StatusInternalServerError, "Failed to delete contact") && unchanged(db)
    ensures ContactHandlers.PathId(rawId).Some? && !dbError ==>
              && resp == Response(StatusNoContent, NoBody)
              && db.lastId == old(db.lastId)
              && db.rows == RemoveId(old(db.rows), rawId.n)
  {
    var contactID := ContactHandlers.PathId(rawId);
    if contactID.None? {
      return PlainError(StatusBadRequest, "Invalid contact ID");
    }
    var err := db.DeleteContact(contactID.value, dbError);
    if err.Err? {
      return PlainError(StatusInternalServerError, "Failed to delete contact");
    }
    resp := Response(StatusNoContent, NoBody);
  }

  /**
   * Without validation, a contact with an empty name and email posted to a
   * fresh table is stored and listed like any other.
   */
  method CreateEmptyThenList() returns (created: Response, listed: Response)
    ensures created == Response(StatusCreated, NoBody)
    ensures listed == Response(StatusOK, JsonArray([Contact(1, "", "")]))
  {
    var db := new ContactTable();
    created := CreateContact(db, Decoded(Contact(0, "", "")), false);
    assert db.rows == [Contact(1, "", "")];
    listed := GetContacts(db, false, None);
  }
}
