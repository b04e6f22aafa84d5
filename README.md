# Configuration store: key resolution, secret namespace and prefix export

A Dafny model of the core of the gaussmeter configuration service
(`src/config.go`). The service keeps configuration values in an embedded,
ordered, multi-version key-value engine (Badger) and serves them over HTTP.
The model covers three pieces of it:

- **Layered key resolution.** `putValue` and `putDefault` write a key, or
  the key prefixed with `default:`. `getValue` returns the key's own value
  and otherwise falls back to `getDefault`, a read of `"default:" + key`.
  `badgerGet` maps the outcome to 200 / 404 / 500.
- **The secret namespace.** `secretPut` and `secretGet` reach
  `"secret:" + key`. `badgerGet` answers 403 to any key for which
  `strings.Index(key, "secret:") == 0` and does no lookup.
- **The prefix export.** For one key, `customToList` emits at most one
  record, built from the key's newest version. `badgerStream` concatenates
  these lists over every key under a prefix. `streamrGet` refuses a prefix
  in the secret namespace with 403.

Files and modules:

- `namespace.dfy`, module `Namespace`: the `secret:` and `default:` prefixes,
  `IndexOf` (the least character position of a substring, or -1; it agrees
  with Go's `strings.Index` on the `== 0` test the handlers make) and the
  namespace test built on it.
- `status.dfy`, module `Status`: the HTTP status codes.
- `store.dfy`, module `ConfigStore`: the class `Store`, whose field `kv` is
  the engine's map and whose methods are `putValue`, `putDefault`,
  `getValue` and `getDefault`; the functions `Read`, `DefaultOf` and
  `ValueOf` specify the reads; lemmas cover the round trips and the fallback.
- `handlers.dfy`, module `Handlers`: the four point handlers, as methods on
  a `Store` that return the status and body they write.
- `export.dfy`, module `Export`: `customToList`, `badgerStream` and
  `streamrGet` as loops over a sequence of version items; the reference
  function `Export`; lemmas about what the export contains.

What the model takes as parameters instead of computing:

- The engine's read faults. A failed `txn.Get` whose error is not
  `ErrKeyNotFound` (an I/O or corruption fault) is modelled by the set
  `Store.faulty` of keys whose reads fail. This is the only way the 500
  path can arise.
- The engine's iterator. It is the sequence of version items the stream
  visits from its seek position on: keys in order, newest version first
  within a key. The stream stops at the first key without the prefix.
- The wall clock. It is `now` (Unix seconds), used for an item's
  `IsDeletedOrExpired` (a delete marker, or a nonzero expiry `<= now`).
  The engine reads the clock again for every item it tests; the model uses
  one `now` for the whole export, so an entry that expires while the stream
  is running is not modelled.
- Value-log read failures. The iterator's item carries `valueFails` when
  `item.ValueCopy` fails on it.
- The JSON decode and re-encode of a value through `TState`. It is the
  total function `normalize`.

Behaviours of the code that the model keeps as they are, although a
reader might expect otherwise:

- `getValue` falls back to the default on *any* read error, not only on
  not-found. A fault on the key itself is therefore hidden by a readable
  default (`FaultFallsBackToDefault`). It is not reported as a 500.
- `customToList` `break`s when the newest version is deleted or expired, so
  an older live version is never exported (`DeadNewestHidesKey`,
  `ExpiredNewestExportsNothing`).
- `streamrGet` only refuses a prefix that itself begins with `secret:`. A
  shorter prefix such as `s` exports the secret entries under it
  (`ShortPrefixExportsSecrets`).
- `secretPut` stores the plain body. No reference token is minted, and no
  external secret store is involved.
- `badgerPut` has no namespace check. A general PUT of `secret:k` is what
  `secretGet(k)` then returns (`GeneralPutReachesSecret`).
- `secretGet(k)` falls back to `"default:secret:" + k`. That key is outside
  the secret namespace, so a general PUT can write it and a general GET can
  read it. While `"secret:" + k` holds nothing readable, general traffic
  decides what `secretGet(k)` returns (`GeneralPutSteersSecretDefault`).
- `customToList` overwrites the error of `item.ValueCopy` before testing it.
  A failed value read still exports the key, with the re-encoding of an
  empty decode, `normalize("")`, as its value (`FailedValueReadStillExported`).
- What `normalize` yields for a value is left open: the decode into `TState`
  and the re-encode are not modelled.

## Model

| member | source | states |
|---|---|---|
| `Namespace.IndexOf` | src/config.go:68 | the result is -1 exactly when `sub` occurs nowhere, else the least character position where it occurs; on the `== 0` test it agrees with `strings.Index` |
| `Namespace.SecretNamespaceIsPrefix` | src/config.go:165 | the test `strings.Index(key, "secret:") == 0` holds exactly when `key` begins with `secret:` |
| `Namespace.IndexZeroIffPrefix` | src/config.go:68 | index 0 of a substring is the same as being a prefix, in both directions |
| `Namespace.SecretKey` | src/config.go:178 | `"secret:" + k` is in the secret namespace, and `k` is recovered by dropping the prefix |
| `Namespace.DefaultKey` | src/config.go:224 | `"default:" + k` is never a secret key, differs from `k`, and `k` is recovered by dropping the prefix |
| `Namespace.PrefixedKeysInjective` | src/config.go:237 | distinct keys get distinct secret keys and distinct default keys |
| `Namespace.DefaultAndSecretDisjoint` | src/config.go:224 | no default key equals any secret key |
| `ConfigStore.Store.Put` | src/config.go:198-208 | putValue sets `key` to `val` and leaves every other key unchanged |
| `ConfigStore.Store.PutDefault` | src/config.go:235-246 | putDefault sets only `"default:" + key`, so a direct value is never changed |
| `ConfigStore.Store.GetDefault` | src/config.go:222-233 | getDefault returns the value of `"default:" + key`; a missing default gives `""` with not-found, a failed read gives `""` with the engine's error |
| `ConfigStore.Store.Get` | src/config.go:210-220 | getValue returns the stored value when the key can be read; otherwise it returns exactly what getDefault returns |
| `ConfigStore.ValueFoundIff` | src/config.go:210-233 | getValue succeeds exactly when the key or its default can be read, and then yields the key's own value first, else the default |
| `ConfigStore.ValueAbsent` | src/config.go:226-229 | with neither the key nor its default present, getValue gives `""` with not-found |
| `ConfigStore.FaultFallsBackToDefault` | src/config.go:212-216 | a failed direct read falls back to the default, like a missing key |
| `ConfigStore.PutThenGet` | src/config.go:198-219 | putValue(k, v) then getValue(k) yields v |
| `ConfigStore.PutLeavesOthers` | src/config.go:198-208 | putValue(k, v) leaves getValue of every key other than k unchanged, unless k is its default key |
| `ConfigStore.DirectShadowsDefault` | src/config.go:210-246 | when the key holds a value, writing its default does not change what getValue returns |
| `ConfigStore.DefaultServesAbsentKey` | src/config.go:222-246 | putDefault(k, d) on a key with no value of its own makes getValue(k) return d |
| `ConfigStore.SeedThenOverride` | src/config.go:198-246 | after seeding a default, getValue gives the default; after putValue it gives the written value |
| `Handlers.StatusOf` | src/config.go:74-81 | found maps to 200, not-found to 404 and any other error to 500, each in both directions |
| `Handlers.BadgerGet` | src/config.go:65-84 | a key beginning with `secret:` gets 403 with an empty body; any other key gets getValue's value with its mapped status, never 403 |
| `Handlers.BadgerPut` | src/config.go:86-95 | the body is stored under the key as given, with no namespace check, and the reply is 200 "ok" |
| `Handlers.SecretPut` | src/config.go:174-181 | the body is stored under `"secret:" + key` and the reply is 200 "ok" |
| `Handlers.SecretGet` | src/config.go:183-196 | getValue of `"secret:" + key` with the same status mapping as badgerGet, never 403 |
| `Handlers.SecretForbiddenRegardless` | src/config.go:68-72 | a general GET of a secret key gives the same 403 reply whatever the store holds, so it depends on no lookup |
| `Handlers.GeneralGetOutcomes` | src/config.go:73-81 | outside the secret namespace: 200 with the value or its default, 404 with `""` when both are absent, 500 when the default read fails |
| `Handlers.SecretRoundTrip` | src/config.go:174-196 | secretPut(k, v) then secretGet(k) gives 200 with v, while a general GET of `"secret:" + k` gives 403 |
| `Handlers.GeneralPutReachesSecret` | src/config.go:86-95 | a general PUT of a `secret:` key is what secretGet returns afterwards |
| `Handlers.SecretPutLeavesGeneral` | src/config.go:174-181 | a secret write never changes the general GET of a key outside the secret namespace |
| `Handlers.GeneralPutSteersSecretDefault` | src/config.go:183-233 | `"default:secret:" + k` is outside the secret namespace; a general PUT of it is what secretGet(k) returns while the secret key is unreadable, and a general GET reads it back |
| `Export.CustomToList` | src/config.go:98-135 | at most one record, present exactly when the first item is live and of the requested key; it copies that item's key, userMeta, version and expiry and normalises its value, or normalises `""` when the value read fails |
| `Export.BadgerStream` | src/config.go:137-160 | the concatenation, in iteration order, of the per-key lists for the keys under the prefix equals `Export` |
| `Export.StreamrGet` | src/config.go:162-172 | a prefix beginning with `secret:` gets 403 and no records; any other prefix gets 200 and the full export |
| `Export.ExportFromSound` | src/config.go:102-128 | every exported record carries the prefix and copies a reached, live item that is the first version of its key |
| `Export.ExportFromComplete` | src/config.go:141-152 | every reached, live first version of a key under the prefix is exported |
| `Export.ExportFromDistinct` | src/config.go:102-128 | when the versions of a key are adjacent, no two records share a key |
| `Export.ExportIsNewestVersion` | src/config.go:102-128 | when versions of a key are adjacent and newest first, each record has the highest version of its key |
| `Export.DeadNewestHidesKey` | src/config.go:104-106 | when the newest version of a key is deleted or expired, no record of that key is exported, whatever older versions hold |
| `Export.ExpiredNewestExportsNothing` | src/config.go:104-106 | three versions of a key with the newest expired: the export is empty, not the second-newest version |
| `Export.FailedValueReadStillExported` | src/config.go:112-115 | a live first version whose value read fails is still exported, with the value `normalize("")` |
| `Export.ShortPrefixExportsSecrets` | src/config.go:165-169 | the prefix `s` is not refused and exports a stored `secret:` entry |

## Left out

- HTTP plumbing: gorilla/mux routing, `ListenAndServe`, reading request bodies (a read failure panics), and writing headers and bodies (`src/config.go:326-334`). Handlers are plain methods that return the status and the body.
- Logging (`log.Printf`) has no effect on the model.
- Write failures: a failed `txn.Set` or `txn.Commit` ends the process through `log.Fatal`. The model's writes always succeed. In `getValue` and `getDefault` a failed `ValueCopy` after a successful `txn.Get` also ends the process (`src/config.go:218`, `src/config.go:231`), so the store's successful reads always return the value. In `customToList` that failure is not fatal and is modelled.
- Transactions and snapshot isolation: each operation is one atomic step on the map.
- Versions in the map: it keeps only the latest value per key. Versions, expiry and user metadata exist only in the export's version items, and the model states no relation between the map and the iterator.
- The stream engine: `Stream.Orchestrate`, `NumGo`, batching of lists before `Send`, and the error that `Orchestrate` logs. The export is one serial walk, and its errors are not modelled.
- The `json.Marshal` error return of customToList is not modelled (`src/config.go:115-117`). Marshalling a `TState` (booleans and float64 values decoded from JSON) cannot fail. The decode and re-encode is the parameter `normalize`.
- The statements after the unconditional `break` in `customToList` (`src/config.go:130-132`) can never run.
- The jsonpb marshalling of the export reply: the reply carries the records themselves.
- `main`: signal handling, `DB.Close`, the value-log GC goroutine, and the engine options. The default seeding (`src/config.go:298-317`) is a series of `Store.PutDefault` calls.
- Integer widths: `Version` and `ExpiresAt` are `uint64` in Go and `nat` here. A server clock or version counter past 2^64 is not modelled.
- Container-orchestration provisioning and `docker-secret:` reference tokens do not occur in `src/config.go` and are not part of this model.
- Keys and values are sequences of Unicode characters, not Go byte strings. Byte strings that are not valid UTF-8, such as a percent-decoded `%FF` path segment, are not represented, and `IndexOf` counts characters where `strings.Index` counts bytes.
