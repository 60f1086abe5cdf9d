# baste: paste store and configuration, modelled in Dafny

baste is a small paste server. An authenticated client POSTs a multipart
upload to `/paste`. The server stores the bytes in a file under its storage
directory and answers with the file's name, a word phrase such as
`gentle-otter-mint`. Anyone can GET `/<name>` to read the bytes back.
The settings come from the environment and are checked and completed by
`Config::load`.

This project models the core of that behaviour and proves its properties:

- `config.dfy` (module `Config`): the settings record, the token-length
  validation and the defaults for port, storage directory and address.
  `Load` is written the way the source writes it: a local record is
  reassigned field by field.
- `store.dfy` (module `Store`): the storage directory is a class
  `StorageDir` with two fields. `present` says whether the directory exists.
  `files` maps file names to byte sequences. `WritePaste`, `ReadPaste` and
  `EnsureStorageDir` are methods that read or update those fields.
  `phrase()` is modelled by a sequence `candidates`: the k-th call returns
  `candidates[k]`.
- `handlers.dfy` (module `Handlers`): the decision logic of the `paste`
  and `paste_id` handlers over plain values. A request is given as its
  header map and its multipart payload, which is a sequence of named fields,
  each a sequence of chunks.
- `search.dfy` (module `Search`): `FirstIndex`, the "first element that
  qualifies" search. It specifies both server loops: the name loop of
  `write_paste` and the field loop of `paste`.
- `wrappers.dfy` (module `Wrappers`): `Option`, `Result` and `Outcome`.

Three points where the code is looser than a careful design would be; the model follows the code:

- `paste_id` answers 404 for every read error. It does not tell a missing
  paste apart from a storage fault.
- The retry loop of `write_paste` has no cap.
- Names are used as file names without any check against path traversal.

## Model

| member | source | states |
|---|---|---|
| `Config.Load` | src/config.rs:26-47 | Fails exactly when the secret token has fewer than 10 characters; the check looks only at the token, so a short token fails whatever the optional fields hold. On success the result is valid and complete, keeps the token, and has port `None`→`Some(9950)`, storage directory `None`→`Some("./baste_storage")`, address `None`→`Some("0.0.0.0")`, with any present value kept. It equals `ApplyDefaults(raw)`. |
| `Config.ApplyDefaultsKeepsPresent` | src/config.rs:31-44 | The defaulting step keeps the token and every field that was present, and leaves no optional field missing. |
| `Config.ApplyDefaultsIdempotent` | src/config.rs:26-47 | A complete record is a fixed point of defaulting, so defaulting the result of `load` again changes nothing. |
| `Search.FirstIndex` | src/main.rs:135-139 | The result is at most the length; every earlier element fails the predicate; the element at the result, if any, satisfies it. |
| `Search.FirstIndexUnique` | src/main.rs:99-114 | These properties determine the index: any index preceded only by failures and sitting on a hit (or at the end) is `FirstIndex`. |
| `Store.Retries` | src/main.rs:134-139 | The final `phrase_retries` count: every candidate before it names an existing file, and the candidate at it, if any, is free. |
| `Store.StorageDir.WritePaste` | src/main.rs:128-150 | The loop stops at the first free candidate, and `retries` equals `Retries`, the number of rejected candidates. If the directory exists, the returned name was not a file before and now holds exactly `content`, the key set grows by exactly that name, and every other file is unchanged. If the directory is missing, creating the file fails with "no such file" and nothing changes. |
| `Store.StorageDir.ReadPaste` | src/main.rs:152-162 | Succeeds exactly when a file of that name exists, returning its bytes verbatim; otherwise fails with "no such file". |
| `Store.StorageDir.EnsureStorageDir` | src/main.rs:164-168 | Afterwards the directory exists with the same files. When it already existed, nothing changes, so a second call is a no-op. |
| `Store.WriteThenRead` | src/main.rs:128-162 | A read right after a successful write returns exactly the bytes written, under a name that was fresh. |
| `Store.TwoWrites` | src/main.rs:128-150 | Two successive writes return different names, and each name reads back its own content, provided the second write has a free candidate other than the name the first write takes. |
| `Handlers.CheckSecretToken` | src/main.rs:90-97 | Passes exactly when the `X-Secret-Token` header is present and equals the configured token. A missing header gives BadRequest "missing secret token"; a different value gives BadRequest "wrong token". |
| `Handlers.FirstUpload` | src/main.rs:99-114 | Returns the first chunk of the first field named `baste_file` that yields a chunk, skipping every other field. Returns nothing exactly when no field qualifies. |
| `Handlers.Paste` | src/main.rs:85-117 | Both token rejections, the "no multipart found" case and a failed write to a missing directory leave the store unchanged (the directory stays missing). Otherwise only the selected chunk is written, under the first free candidate, and that name is returned. A failed write gives InternalServerError. |
| `Handlers.PasteId` | src/main.rs:70-83 | Returns the stored bytes exactly when the paste exists. Every read error becomes NotFound "paste not found". |

## Left out

- Name generation: `phrase()` wraps the `chbs` library (random words from a word list, joined by "-", never capitalised). That library is not part of this model, so candidates arrive as a given sequence.
- `Store.StorageDir.WritePaste`: the source loop is unbounded. The model requires that the candidate sequence holds at least one free name, which is what makes the loop terminate. No retry cap is added.
- Store.StorageDir.WritePaste: `phrase_retries` is an `i32` in the source; the model returns it as an unbounded `nat`, so the wrap-around after 2^31−1 retries is not modelled. The counter is only logged.
- Path semantics: `Path::join` with absolute names or `..` segments is not modelled. Names are flat keys, and no claim of traversal safety is made, because the source does no sanitisation.
- Concurrency: the model is sequential. The check-then-create race between concurrent `paste` requests, which the source does not close, and the tokio/actix runtime are not modelled.
- Filesystem failure modes: permission errors, a full disk, a partial write, and a panic in `create_dir_all` are not modelled. The only failure modelled is a missing directory. `IoError` lists the other kinds so that `PasteId` maps them all. `File::create` truncating an existing file cannot happen here because the name is fresh.
- HTTP plumbing: routing, the `Compress` and `Logger` middleware, server binding, and errors inside the multipart stream (`item?`, `chunk.unwrap()`) are not modelled.
- `Handlers.CheckSecretToken`: headers are a map keyed by the exact name `X-Secret-Token`. The case-insensitive lookup and multi-valued headers of actix's header map are not modelled.
- Other I/O: the `root` handler (banner and README), logging (`phrase_retries` is returned rather than logged), `main`'s start-up wiring, and `Envconfig::init_from_env`. `Load` takes the record that `init_from_env` would produce, so environment variables that fail to parse are not modelled.
