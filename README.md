# thaichana — a Dafny model of the check-in service core

thaichana is a small HTTP service. A client posts base64-encoded JSON to `/checkin`
with a user id and a place id, and the service stores the visit.

This project models the request path of that service. The path has four parts:

- **The router chain.** Routes are registered on a gorilla/mux router with two middlewares.
  `logger.Middleware(z)` is outermost. `SealMiddleware()` comes next, then the route.
- **The logger middleware** (`logger/middleware.go`). It binds the request's `traceparent`
  header to a per-request zap logger. It stores that logger in the request context under the
  key `"logger"`. `L` looks the logger up again. If the key is absent or holds something
  other than a logger, `L` falls back to an example logger.
- **The transcoding middleware** (`SealMiddleware`, `EncodeWriter`). It reads the whole
  request body and decodes it with Go's `base64.StdEncoding`. If the read or the decode
  fails, the response is 400 and the route is not run. Otherwise the route gets the decoded
  body and an `EncodeWriter`. The `EncodeWriter` base64-encodes every `Write` on its own
  before passing it to the real response writer.
- **The handlers.** `CheckIn(check Iner)` decodes a `Check` from the JSON body. It calls
  `check.In(id, placeID)` once and answers `{"message":"ok"}`. If decoding fails or the store
  reports an error, it answers 500 with the error's JSON. `Recently` and `CheckOut` are
  empty stubs.

## Modules

- `Wrappers`: `Option` and `Result`.
- `Go`: `byte`, `int64` and `error`. An `error` is represented by its JSON rendering.
- `Base64`: the RFC 4648 standard encoding (section 4, standard alphabet, padding
  required), as Go's `StdEncoding` implements `EncodeToString` and `DecodeString`:
  - The decoder skips CR and LF anywhere in its input.
  - It needs complete 4-character groups.
  - It accepts padding only in the last group.
  - It ignores non-zero bits before the padding.
- `Zap`: a logger as a value, a core plus the fields bound with `With`.
- `Http`:
  - the request context, a map from key to value;
  - `Header.Get`, with Go's canonical form of header keys;
  - the request;
  - the response writer, a class with `status`, `header` and `body` fields. The first
    status sent wins, and a write without a status sends 200.
- `Logger`: `logger/middleware.go`.
- `Thaichana`: `main.go`. It contains:
  - the `InFunc` capability, a class with a ghost log of its calls;
  - the `EncodeWriter` class;
  - the three handlers as methods;
  - `HandlerEffect`, a reference description of each handler;
  - `SealMiddleware`;
  - `Serve`, which composes the chain for one request.

## Model

| member | source | states |
|---|---|---|
| Base64.Encode | main.go:153 | An encoding is 4·⌈n/3⌉ bytes long for n input bytes. Every byte is a symbol of the alphabet or, in the last two places, padding. |
| Base64.Decode | main.go:135 | A successful decode means every input byte was a symbol, padding, CR or LF. Which inputs are accepted exactly is stated by DecodeIffWellPadded. |
| Base64.DecodeQuantaWellPadded | main.go:135 | Input without line breaks decodes if and only if it is well padded: complete groups of four, every character a symbol except that the last one or two may be "=", and an "=" in the second-to-last place is followed by another. |
| Base64.DecodeIffWellPadded | main.go:135 | DecodeString accepts an input if and only if, with CR and LF removed, it is well padded. A wrong symbol, an incomplete group, padding too early and a padded group followed by another are all rejected. |
| Base64.BadPaddingRejected | main.go:135 | "QQ", "QQ=", "Q===", "QQ=Q" and "QQ==QQ==" do not decode. |
| Base64.AssembleValue | main.go:135 | The three decoded bytes of a group, read as one 24-bit number, are its four 6-bit symbol values read as one. |
| Base64.RoundTrip | main.go:135-153 | For every byte sequence b, decoding the encoding of b gives b. |
| Base64.EncodeInjective | main.go:153 | Different cleartexts never share an encoding. |
| Base64.EncodeLonger | main.go:152-154 | An encoding's length is a multiple of 4, and it is longer than any non-empty input. |
| Base64.EncodeAppendAligned | main.go:152-154 | Encoding b1 and b2 separately and joining the results equals encoding b1 + b2 when \|b1\| is a multiple of 3. |
| Base64.PaddedPrefixUndecodable | main.go:135 | For input without line breaks, a padded encoding followed by any further bytes does not decode: no group may follow a padded one. |
| Base64.SplitEncodingUndecodable | main.go:152-154 | If \|b1\| is not a multiple of 3, Encode(b1) followed by Encode(b2) does not decode, and it differs from Encode(b1 + b2). |
| Base64.EncodePadBitsZero | main.go:153 | The encoder always writes zero bits before the padding. |
| Base64.EncodeDecodedQuantum | main.go:135 | A decodable group with zero bits before its padding re-encodes to itself. |
| Base64.CanonicalIff | main.go:135-153 | A decodable input without line breaks is the encoding of what it decodes to if and only if its bits before the padding are zero. |
| Base64.CanonicalDecode | main.go:135-153 | Any input DecodeString accepts is the encoding of what it decodes to if and only if it holds no CR or LF and its bits before the padding are zero. |
| Base64.DecodeIgnoresLineBreak | main.go:135 | Inserting a CR or LF anywhere does not change the decoding result, success or failure. |
| Base64.StripNewlines | main.go:135 | The decoder's input minus line breaks holds the same byte values apart from CR and LF, and is unchanged when there are none. |
| Base64.EncodeOfA | main.go:153 | The encoding of "A" is "QQ==". |
| Base64.NonCanonicalAccepted | main.go:135 | "QR==" and "QQ==" followed by LF both decode to "A". |
| Http.WithValue | logger/middleware.go:18 | The child context returns the new value under its key and the parent's value under every other key. |
| Http.CanonicalKey | logger/middleware.go:17 | A canonical key has the key's length and agrees with it letter by letter, ignoring case. A key with a non-token character is unchanged. In a key of token characters, the first letter and every letter after a hyphen are upper case and all other letters lower case. |
| Http.GetIgnoresCase | logger/middleware.go:17 | Two header keys made of token characters that differ only in letter case look up the same value. |
| Http.CanonicalTraceparent | logger/middleware.go:17 | Get(traceparent) reads the header stored as "Traceparent". |
| Http.ResponseWriter.WriteHeader | main.go:104 | The first final status sent wins, and later calls change nothing. An informational 1xx code other than 101 never becomes the status. |
| Http.ResponseWriter.Write | main.go:154 | The body grows by exactly the data, the count returned is its length, and the status becomes 200 if none was sent. |
| Logger.Middleware | logger/middleware.go:14-21 | The next handler gets the same header and body. Every context key except "logger" keeps its value. L of the new context is the base logger with one added traceparent field, whose value is "" when the header is absent. |
| Logger.L | logger/middleware.go:23-34 | L never fails: every context yields a logger, which is either the one stored under "logger" or the example logger. LFindsStoredLogger and LFallsBack state which one. |
| Logger.LFindsStoredLogger | logger/middleware.go:23-31 | L returns the logger stored under "logger". |
| Logger.LFallsBack | logger/middleware.go:23-33 | L returns the example logger when the key is absent, holds nil, or holds a non-logger. |
| Logger.HandlerSeesTraceLogger | logger/middleware.go:17-18 | A handler below the middleware retrieves exactly base.With(traceparent field). That field holds the first value stored under "Traceparent", or "". |
| Thaichana.InFunc.In | main.go:88-92 | In returns the function's own result for the pair and records exactly one call with that pair. |
| Thaichana.DecodeAlignedWrites | main.go:148-155 | If every write but the last is a multiple of 3 bytes long, the client decoding the whole body recovers all the writes joined. |
| Thaichana.MisalignedWritesUndecodable | main.go:148-155 | If the first of two writes is not a multiple of 3 bytes long and the second is non-empty, the body does not decode at all. |
| Thaichana.EncodeWriter.Write | main.go:152-155 | The wrapped writer receives exactly Encode(b). The returned count is the encoded length 4·⌈\|b\|/3⌉, not \|b\|, and it exceeds \|b\| when b is non-empty. The status rule of the wrapped writer applies. The invariant that the wrapped body is its original plus every write encoded separately is kept. |
| Thaichana.EncodeWriter.WriteHeader | main.go:148-150 | WriteHeader passes through to the wrapped writer unchanged, with the same rule for informational codes, and leaves the body alone. |
| Thaichana.EncodeWriter.SetHeader | main.go:148-150 | Header changes pass through to the wrapped writer unchanged. |
| Thaichana.CheckInCallsStoreOnce | main.go:103-110 | The store is called exactly once, with the decoded pair, when the body decodes. It is never called otherwise. |
| Thaichana.CheckInResponse | main.go:103-118 | There is exactly one body write. The status is 500 exactly when decoding or the store fails, and otherwise the client sees {"message":"ok"} under an implicit 200. A decoding failure writes that error's JSON. |
| Thaichana.StubsDoNothing | main.go:74-76 | Recently and CheckOut make no store calls, set no status and write nothing. |
| Thaichana.CheckIn | main.go:99-120 | The store calls, the writes and the status are those of the handler's reference effect. The writer invariant is kept. |
| Thaichana.Recently | main.go:74-76 | The response writer is unchanged. |
| Thaichana.CheckOut | main.go:123-125 | The response writer is unchanged. |
| Thaichana.Dispatch | main.go:48-50 | Each route runs its own handler with that handler's reference effect. |
| Thaichana.Unseal | main.go:130-142 | The next handler gets the same header and context. |
| Thaichana.UnsealEncoded | main.go:130-143 | A body that is the encoding of p reaches the route with body p. |
| Thaichana.UnsealRejects | main.go:130-139 | A body whose read fails, or that holds a byte outside the alphabet, padding and line breaks, never reaches the route. |
| Thaichana.UnsealRejectsNonBase64 | main.go:135-139 | The body "%%%not-base64%%%" is rejected. |
| Thaichana.SealMiddleware | main.go:127-146 | On a read or decode failure: status 400, nothing written, no store call, the route not run. Otherwise the route runs on the decoded request, and the writer's body grows by each of its writes encoded separately. Headers are unchanged. |
| Thaichana.Serve | main.go:37-39 | For one request through the logger middleware, SealMiddleware and the route, on a fresh writer: a rejected body gets 400 and an empty body. Otherwise the route sees the logger bound to the traceparent, and the status, writes and store calls are the route's reference effect. Decoding the response body gives back the route's cleartext. |

## Left out

- Server bootstrap (main.go:22-61 except the router chain) is not modelled: configuration,
  hostname logging, the SQLite connection, the server's timeouts and ListenAndServe.
- `NewInsertCheckIn` (main.go:78-86) and SQLite are not modelled. The store is an
  arbitrary pure function from (id, placeID) to an optional error.
- JSON decoding of `Check` is a parameter `parse` of the handlers, and JSON encoding of an
  error is the error's `json` field.
  - The struct tags `json:id` and `json:place_id` (main.go:64-65) are malformed, so Go
    matches fields by name without case. A body `{"id":1,"place_id":42}` would therefore
    decode to place id 0. The model does not capture this, since parsing is abstract.
  - An error whose marshalling fails (json.Encoder.Encode returning an error) is not
    modelled.
- The log line CheckIn writes through `logger.L` (main.go:102) is not modelled. Only the
  logger it would use is stated (`Logger.HandlerSeesTraceLogger`).
- Logger internals (zap cores, encoders, output) are not modelled. A logger is its core
  plus its bound fields, and `zap.NewExample()` is the constant `Zap.Example`.
- The `Location` struct (main.go:68-71) is unused by the handlers and not modelled.
- Router matching is not modelled: path patterns, the POST method filter, and 404/405
  responses. The router is the `Route` datatype.
- Handlers are modelled only below SealMiddleware, which is the only way the router runs
  them. They therefore take an `EncodeWriter` rather than any response writer.
- Errors returned by the underlying response writer's Write are not modelled. Neither is
  Go's snapshot of headers at the time the status is sent.
- `r.Body.Close` (main.go:108) and the body reader's streaming are not modelled. A body is
  either its bytes or a read error.
- A typed nil `*zap.Logger` stored under "logger" is not modelled: `Http.Value` has no tag
  for it. In Go, `L` would return that nil logger and CheckIn's `Info` call (main.go:102)
  would panic. Nothing in the program stores one; the middleware always stores the logger
  it has just built.
- Http.ResponseWriter.WriteHeader: informational codes follow current net/http, which sends
  them ahead of the response without recording them. Older Go releases treated them as
  final, and the model does not capture that.
- Concurrency between requests is not modelled. Each request is one sequential run of the
  chain.
- Thaichana.EncodeWriter.Write: Go returns the wrapped writer's count, possibly with a write
  error. The model always returns the full encoded length.

## Notes on the code

- Go's decoder also accepts input that is not a canonical encoding: line breaks anywhere,
  and non-zero bits before the padding. So decoding and then re-encoding a request body
  does not always give the body back. The model follows the decoder as written:
  - `Base64.CanonicalDecode` states exactly which accepted inputs re-encode to themselves.
  - `Base64.NonCanonicalAccepted` gives two inputs that do not.
- The struct tags on `Check` (main.go:64-65) lack quotes, so Go ignores them and matches
  JSON keys to the field names `ID` and `PlaceID` without case. A body
  `{"id":1,"place_id":42}` therefore reaches the store as (1, 0), because `place_id`
  matches no field. The model leaves JSON decoding as the parameter `parse`, so it does not
  capture this.
- A check-in body that is not valid JSON gets 500, a server-error status, for what is a
  client mistake (main.go:103-106). The model keeps 500, as the code does.
