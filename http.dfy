/**
 * Values that cross the boundary between the contact service's handlers and
 * the libraries they call: what a JSON decoder or an integer scanner hands
 * back, and the HTTP response a handler writes.
 */
module Http {

  import Models

  /** Result of `json.NewDecoder(r.Body).Decode(&v)`: a value, or an error. */
  datatype Decoded<T> = Decoded(value: T) | DecodeError

  /**
   * Result of `strconv.Atoi(s)`. On a syntax error Go returns 0 with the error;
   * on a range error it returns the saturated 64-bit value with the error.
   */
  datatype Atoi = AtoiOk(n: int) | AtoiSyntaxError | AtoiRangeError(negative: bool)

  /** Result of `fmt.Sscanf(s, "%d", &n)`: the leading integer, or an error. */
  datatype Scan = Scanned(n: int) | ScanError

  const MaxInt64: int := 0x7FFF_FFFF_FFFF_FFFF
  const MinInt64: int := -0x8000_0000_0000_0000

  /** The integer a caller that ignores Atoi's error goes on with. */
  function AtoiValue(a: Atoi): int
  {
    match a
    case AtoiOk(n) => n
    case AtoiSyntaxError => 0
    case AtoiRangeError(negative) => if negative then MinInt64 else MaxInt64
  }

  /** What a handler writes into the response body. */
  datatype Body =
    | NoBody                                  // only a status line was written
    | ErrorEnvelope(message: string, code: int)  // {"error":{"message":..,"code":..}}
    | PlainText(text: string)                 // what http.Error writes
    | JsonNull                                // encoding of a nil slice
    | JsonArray(items: seq<Models.Contact>)   // encoding of a non-empty slice
    | JsonStringMap(fields: map<string, string>)  // encoding of a map[string]string

  datatype Response = Response(status: int, body: Body)

  const StatusOK: int := 200
  const StatusCreated: int := 201
  const StatusNoContent: int := 204
  const StatusBadRequest: int := 400
  const StatusUnauthorized: int := 401
  const StatusInternalServerError: int := 500

  /** The JSON error envelope: the code inside always equals the status. */
  function SendError(status: int, message: string): Response
  {
    Response(status, ErrorEnvelope(message, status))
  }

  /** `http.Error`: the message as plain text, followed by a newline. */
  function PlainError(status: int, message: string): Response
  {
    Response(status, PlainText(message + "\n"))
  }

  /**
   * `json.NewEncoder(w).Encode(contacts)` for the slice the store returned. The
   * store only ever appends to a nil slice, so an empty result is nil and is
   * written as `null`, not `[]`.
   */
  function EncodeContacts(cs: seq<Models.Contact>): Body
  {
    if cs == [] then JsonNull else JsonArray(cs)
  }
}
