/** The two HTTP handlers of `src/main.rs` that touch the store: `paste`
    (authenticated upload) and `paste_id` (public download). Requests are
    given as plain values: the header map, and the multipart payload as a
    sequence of named fields, each a sequence of chunks. */
module Handlers {
  import opened Wrappers
  import opened Search
  import opened Store

  const SECRET_TOKEN_HEADER: string := "X-Secret-Token"
  const MULTIPART_FIELD_NAME: string := "baste_file"

  const MISSING_SECRET_TOKEN: string := "missing secret token"
  const WRONG_TOKEN: string := "wrong token"
  const NO_MULTIPART_FOUND: string := "no multipart found"
  const PASTE_NOT_FOUND: string := "paste not found"

  /** The responses other than 200 that the handlers produce. */
  datatype HttpError =
    | BadRequest(message: string)
    | NotFound(message: string)
    | InternalServerError(cause: IoError)

  /** The state shared by the handlers: the configured token and the
      storage directory its path names. */
  datatype PasteManager = PasteManager(secretToken: string, storage: StorageDir)

  /** One multipart field: its name and the chunks its stream yields. */
  datatype Field = Field(name: string, chunks: seq<Bytes>)

  /** The fields `paste` accepts: named `baste_file` and yielding a chunk. */
  predicate CarriesUpload(f: Field) {
    f.name == MULTIPART_FIELD_NAME && |f.chunks| > 0
  }

  /** The secret-token gate of `paste`. */
  function CheckSecretToken(headers: map<string, string>, configured: string): (r: Outcome<HttpError>)
    ensures r == Pass <==> SECRET_TOKEN_HEADER in headers && headers[SECRET_TOKEN_HEADER] == configured
    ensures SECRET_TOKEN_HEADER !in headers ==> r == Fail(BadRequest(MISSING_SECRET_TOKEN))
    ensures SECRET_TOKEN_HEADER in headers && headers[SECRET_TOKEN_HEADER] != configured ==>
              r == Fail(BadRequest(WRONG_TOKEN))
  {
    if SECRET_TOKEN_HEADER !in headers then Fail(BadRequest(MISSING_SECRET_TOKEN))
    else if configured != headers[SECRET_TOKEN_HEADER] then Fail(BadRequest(WRONG_TOKEN))
    else Pass
  }

  /** The field loop of `paste`: skip fields with another name; the chunk
      loop returns on its first chunk, so a field that yields none is passed
      over as well. The result is the first chunk of the first field that
      carries an upload. */
  method FirstUpload(payload: seq<Field>) returns (chunk: Option<Bytes>)
    ensures chunk.None? <==> forall i :: 0 <= i < |payload| ==> !CarriesUpload(payload[i])
    ensures chunk.Some? ==> FirstIndex(payload, CarriesUpload) < |payload| &&
                            chunk.value == payload[FirstIndex(payload, CarriesUpload)].chunks[0]
  {
    var i := 0;
    while i < |payload|
      invariant i <= |payload|
      invariant forall j :: 0 <= j < i ==> !CarriesUpload(payload[j])
    {
      var field := payload[i];
      if field.name != MULTIPART_FIELD_NAME {
        i := i + 1;
        continue;
      }
      if |field.chunks| > 0 {
        FirstIndexUnique(payload, CarriesUpload, i);
        return Some(field.chunks[0]);
      }
      i := i + 1;
    }
    FirstIndexUnique(payload, CarriesUpload, i);
    return None;
  }

  /** `paste`: check the token, then store the first uploaded chunk under a
      fresh name and answer with that name. Nothing is written when the
      request is refused. */
  method Paste(data: PasteManager, headers: map<string, string>, payload: seq<Field>, candidates: seq<Name>)
    returns (r: Result<Name, HttpError>)
    requires data.storage.Valid()
    requires exists i :: 0 <= i < |candidates| && candidates[i] !in data.storage.files
    modifies data.storage
    ensures data.storage.Valid()
    ensures SECRET_TOKEN_HEADER !in headers ==>
              r == Failure(BadRequest(MISSING_SECRET_TOKEN)) && unchanged(data.storage)
    ensures SECRET_TOKEN_HEADER in headers && headers[SECRET_TOKEN_HEADER] != data.secretToken ==>
              r == Failure(BadRequest(WRONG_TOKEN)) && unchanged(data.storage)
    ensures CheckSecretToken(headers, data.secretToken) == Pass &&
            FirstIndex(payload, CarriesUpload) == |payload| ==>
              r == Failure(BadRequest(NO_MULTIPART_FOUND)) && unchanged(data.storage)
    ensures CheckSecretToken(headers, data.secretToken) == Pass &&
            FirstIndex(payload, CarriesUpload) < |payload| && !old(data.storage.present) ==>
              r == Failure(InternalServerError(NoSuchFile)) && unchanged(data.storage)
    ensures CheckSecretToken(headers, data.secretToken) == Pass &&
            FirstIndex(payload, CarriesUpload) < |payload| && old(data.storage.present) ==>
              var name := candidates[Retries(old(data.storage.files).Keys, candidates)];
              && r == Success(name)
              && data.storage.present
              && name !in old(data.storage.files)
              && data.storage.files ==
                 old(data.storage.files)[name := payload[FirstIndex(payload, CarriesUpload)].chunks[0]]
  {
    var gate := CheckSecretToken(headers, data.secretToken);
    if gate.Fail? {
      return Failure(gate.error);
    }
    var chunk := FirstUpload(payload);
    if chunk.None? {
      return Failure(BadRequest(NO_MULTIPART_FOUND));
    }
    var written, _ := data.storage.WritePaste(chunk.value, candidates);
    match written
    case Success(phrase) => r := Success(phrase);
    case Failure(error) => r := Failure(InternalServerError(error));
  }

  /** `paste_id`: the stored bytes, or 404 "paste not found" whatever the
      read error was. */
  method PasteId(data: PasteManager, pasteId: Name) returns (r: Result<Bytes, HttpError>)
    requires data.storage.Valid()
    ensures r.Success? <==> pasteId in data.storage.files
    ensures r.Success? ==> r.value == data.storage.files[pasteId]
    ensures r.Failure? ==> r.error == NotFound(PASTE_NOT_FOUND)
  {
    var read := data.storage.ReadPaste(pasteId);
    match read
    case Success(content) => r := Success(content);
    case Failure(_) => r := Failure(NotFound(PASTE_NOT_FOUND));
  }
}
