# Swarm relay: admission, blob-hash extraction and mirroring in Dafny

Swarm is a Nostr relay with an attached Blossom blob server, restricted to
one team. A team is the set of public keys listed under `names` in the team
domain's `.well-known/nostr.json`. This project models the decision logic of
`main.go` as pure functions and methods, and proves what they promise:

- **Event admission** (`RejectEvent` hook). An event is stored only if its
  author's public key is one of the team's keys.
- **Upload admission** (`RejectUpload` hook). There is a 200 MiB cap, checked
  before membership. Then there is the same team test.
- **Blob-hash extraction** (`extractSha256FromURL`). The URL is split on `/`.
  At least four parts are required. The last part, without its extension,
  must be 64 hex digits in either case. The result is lower-cased, or `""`.
- **Mirroring** (`/mirror` handler). The request is validated in a fixed
  order, then the handler checks the disk, fetches the source, verifies its
  SHA-256 and stores the blob. Here the handler is a function of the
  request and of an `Env` value. `Env` answers for the filesystem
  (`fs.Open`), the HTTP client (`http.Get` and the body read), SHA-256 and
  the `StoreBlob` hook. The outcome lists the effects performed, in order,
  so "nothing is fetched before validation passes" and "only verified
  content is stored" are statements about the result.
- **Configuration helpers**: `getEnvBool`, and the event-store engine
  choice in `newDBBackend`. The environment is a map.

Modules: `Optional` (option type), `Text` (the `strings` functions used,
with a one-character separator), `Hex` (`hex.EncodeToString` and its inverse),
`BlobHash`, `Admission`, `Mirror`, `EnvConfig`.

The mirror hash is accepted in either case and returned lower-cased
(`BlobHash.CaseInsensitive`).

Strings are sequences of Unicode characters, while Go's `len` counts bytes.
The difference never changes a result. A candidate with any non-ASCII
character fails the per-character hex check whatever its byte length, and
`/` and `.` are ASCII. So a byte count of 64 with all runes hex is the same
as 64 hex characters.

## Model

| member | source | states |
|---|---|---|
| Text.IndexOf | main.go:423 | the position returned is the first occurrence of the separator, or -1 exactly when there is none (the search `strings.Split` repeats) |
| Text.LastIndexOf | main.go:432 | `strings.LastIndex`: -1 exactly when the character is absent, otherwise an occurrence with none after it |
| Text.Split | main.go:423 | `strings.Split` on `/` yields at least one part |
| Text.SplitPartsFree | main.go:423 | no part returned by the split contains the separator |
| Text.SplitAfterPlainPrefix | main.go:423 | a separator-free text followed by the separator becomes the first part, whole |
| Text.SplitAtFirstOfPrefix | main.go:423 | when the left side holds a separator, the first cut falls there and not at the joining separator |
| Text.IndexOfConcat | main.go:423 | in `a + "/" + b` the first `/` is the first one in `a`, or the joining one when `a` has none |
| Text.SplitCount | main.go:423-426 | the number of parts is the number of separators plus one, so `len(parts) < 4` means fewer than three `/` |
| Text.SplitConcat | main.go:423 | splitting `a + "/" + b` is splitting `a` followed by splitting `b` |
| Text.JoinSplit | main.go:423 | joining the parts with the separator restores the URL: splitting loses nothing |
| Text.SplitJoin | main.go:423 | splitting a join of separator-free parts returns those parts: the two are inverse |
| Text.SplitLast | main.go:429 | `parts[len(parts)-1]` is exactly the text after the last `/` |
| Text.ToLowerAscii | main.go:444 | `strings.ToLower` on the candidate maps each upper-case ASCII letter to its lower-case letter and keeps every other character, at the same position |
| Text.LowerForgetsCase | main.go:444 | ASCII lower-casing is idempotent and erases an upper-case spelling |
| Text.NatToDecimal | main.go:219 | `%d` of a non-negative number is a digit string without leading zeros whose decimal value is the number |
| Text.IntToDecimal | main.go:219 | `%d` of a status code: a `-` followed by the digits of its magnitude when negative, otherwise its digits; reading the digits back gives the number; no leading zero, with or without the sign |
| Hex.Encode | main.go:233 | `hex.EncodeToString` output has two characters per byte, all lower-case hex digits |
| Hex.DecodeEncode | main.go:233 | decoding the hex rendering of a digest gives the digest back |
| Hex.EncodeInjective | main.go:233-235 | two digests render equal exactly when they are equal, so the string comparison at line 235 compares digests |
| BlobHash.StripExtension | main.go:431-434 | the result is a prefix of the segment; without a `.` it is the whole segment, otherwise it ends just before the last `.` |
| BlobHash.HashFromSegment | main.go:436-447 | the candidate from a last segment is `""` or 64 lower-case hex digits; a non-empty result is the lower-cased segment without its extension; a stripped segment of any length other than 64 gives `""` |
| BlobHash.ExtractSha256FromUrl | main.go:421-448 | the result is `""` or 64 lower-case hex digits; a URL with fewer than three `/` gives `""` |
| BlobHash.ExtractFromSegment | main.go:423-434 | only the last segment is inspected, provided at least two `/` come before it |
| BlobHash.ExtractReadsAfterLastSlash | main.go:423-447 | the split-based extraction equals a reference that counts slashes and reads the text after the last one |
| BlobHash.AtLastSlash | main.go:423-429 | cutting at the last `/` leaves a tail without `/` and every other `/` before the cut |
| BlobHash.NonHexRejected | main.go:437-442 | a 64-character candidate containing any non-hex character gives `""` |
| BlobHash.WrongLengthRejected | main.go:437-447 | a candidate of any length other than 64 gives `""`, whatever the prefix |
| BlobHash.NotAHashExample | main.go:421-448 | `https://x/not-a-hash` extracts `""` |
| BlobHash.StripDottedExtension | main.go:432-434 | for a segment `<h>.<ext>` with no `.` in `ext`, exactly `<h>` remains |
| BlobHash.ExtensionIgnored | main.go:431-434 | `.../<h>.<ext>` and `.../<h>` extract the same value |
| BlobHash.StripExtensionLower | main.go:431-434 | lower-casing and dropping the extension commute |
| BlobHash.HashFromSegmentLower | main.go:439-444 | the candidate read from a segment does not depend on the segment's letter case |
| BlobHash.CaseInsensitive | main.go:439-444 | two last segments differing only in case extract the identical hash |
| BlobHash.RecoversHash | main.go:421-448 | a well-formed URL yields its hash, with or without an extension, and from an upper-case spelling too |
| Admission.ScanTeam | main.go:159-163 | the range loop over `data.Names`, visiting keys in arbitrary order, finds a match exactly when some name maps to the public key |
| Admission.RejectEvent | main.go:71-78 | an event is accepted, with an empty message, exactly when its author is on the team; otherwise it is rejected with "you're not part of the team" |
| Admission.RejectUpload | main.go:152-166 | over 200 MiB is rejected with 413 even for team members; at or under the cap, accepted exactly for team members, echoing `(ext, size)`, otherwise 403 "you're not part of the team" |
| Mirror.HandleMirror | main.go:169-260 | 405 for a non-PUT request, 400 for every other validation failure, with no I/O before validation passes; effects are a prefix of open, fetch, store; a blob absent from disk is always fetched, and only then; 502 when the source is unreachable or answers other than 200, 500 when the body read or the store fails; only content whose SHA-256 matches is stored; success exactly when the blob is on disk (size 0, one effect) or was fetched, verified and stored (all three effects, size = fetched length), with `url = BLOSSOM_URL + "/" + hash` |
| Mirror.RejectionIgnoresEnv | main.go:170-195 | a request that fails validation gets the same answer whatever the filesystem, network or store would do |
| Mirror.RepeatServedFromDisk | main.go:197-208 | after a successful mirror, with the blob on disk, the same request succeeds from disk without fetching, with the same hash and URL |
| Mirror.TamperedContentRefused | main.go:230-238 | fetched content whose digest differs from the requested hash gets 400 "Blob hash mismatch" and is not stored |
| EnvConfig.GetEnvBool | main.go:362-368 | a flag is on exactly when the variable is set to the exact string "true" |
| EnvConfig.NewDbBackend | main.go:388-404 | an unset engine defaults to "postgres"; "lmdb" and "badger" select those stores at the given path; any other value selects Postgres |
| EnvConfig.EngineName | main.go:394-403 | every backend is named by one of the engine settings `lmdb`, `badger` or `postgres` |
| EnvConfig.SelectsNamedEngine | main.go:394-403 | each backend's own engine name selects that backend |
| EnvConfig.UnsetMeansPostgres | main.go:389-392 | leaving the engine unset is the same as naming "postgres" |

## Left out

- Relay construction and hook registration (main.go:56-62), the plain relay server started when Blossom is disabled (main.go:80-96), the Blossom wiring and `ListenAndServe` (main.go:97-98, 262-274). These are framework plumbing. The one decision among them is at main.go:80: `RejectUpload` and the `/mirror` handler are installed only when `BLOSSOM_ENABLED` is "true" (`EnvConfig.GetEnvBool`); otherwise only `RejectEvent` applies. The model states each hook's behaviour once installed.
- The `StoreBlob` hook's streaming copy with a ten-minute context timeout, plus `LoadBlob` and `DeleteBlob` (main.go:99-151). These are filesystem I/O and cancellation. In the mirror model, storing is the `Env.store` oracle.
- `fetchNostrData` and the hourly refresh goroutine (main.go:64-69, 277-304). These are network, JSON and concurrency. The team map is a parameter of the admission hooks.
- `LoadConfig`, `getEnv`, `getEnvNullable`, the `DB_PATH` default and the backend constructors, including the Postgres DSN formatting (main.go:306-360, 370-376, 406-417). These are environment access with fatal exits and calls into foreign libraries.
- SHA-256 itself. It is the `Env.sha256` oracle, and nothing assumes its output is 32 bytes.
- Mirror.HandleMirror: JSON decoding is abstracted to "malformed" or "decoded URL". A missing `url` field reads as the empty string. The text of Go's error values (`%v`) is a string the environment supplies. The file handle opened by the disk check is never closed in the source, and the model does not track handles.
- Mirror.HandleMirror: the `StoreBlob` hooks are run in a loop (main.go:242-247). Only one hook is registered, so the model has a single store oracle.
- Mirror.HandleMirror: the success log line (main.go:259) is not modelled, because logging has no effect on the reply or the stored blob.
- The comment at main.go:153 says 100MB. The code's limit is 200 MiB (209,715,200 bytes), and the model uses the code's value.
- The three programs under `tests/`. They connect to live relays over WebSocket and make no assertions about this logic.
