# In-memory key-value store over HTTP: a Dafny model

The program keeps one mapping from string keys to string values in memory.
It offers three operations on it: `Put` inserts or overwrites, `Get` returns
the value or a "no such key" error, and `Delete` removes a key and always
succeeds. Three HTTP handlers serve `PUT`, `GET` and `DELETE` on `/v1/{key}`.
Each one calls the matching operation and turns its outcome into a status code:
201 for a stored value, 200 for a read or a delete, 404 for a missing key and
500 when the request body cannot be read.

The model has three modules:

- `KVStore` (`kv_store.dfy`) is the store. It is a class `Store` whose field
  `entries: map<string, string>` plays the role of the package-level map. Its
  `Put` and `Delete` methods change it in place and `Get` only reads it. The
  pure function `Lookup` says what `Get` returns, as a `GetResult` pair of
  value and optional error. Go's `error` becomes the datatype
  `Error = NoSuchKey(key) | Other(message)`. `NoSuchKey(key)` is the error that
  wraps the sentinel `ErrorNoSuchKey`, and the predicate `IsNoSuchKey` plays
  the role of `errors.Is(err, ErrorNoSuchKey)`. Lemmas state round-trip,
  overwrite, "other keys unchanged" and idempotent delete.
- `Handlers` (`handlers.dfy`) holds the status-code decision. `Respond` maps
  an `Outcome` (the verb plus what the store operation or the body read
  returned) to a `Response`, which is a status and the chunks written as the
  body. `Step` serves one `Request` against a store value. The methods
  `PutHandler`, `GetHandler` and `DeleteHandler` follow the Go handlers
  statement by statement on a `Store`, and each is proved equal to `Step`.
- `Sessions` (`sessions.dfy`) serves a sequence of requests one after another
  against one store (`Serve`). It proves the properties that span several
  requests: last write wins, a GET sees the last PUT or gets 404, a 500 only
  ever answers a failed body read, and the example run with key `alice`.

Where the code and its description differ, the model follows the code:

- `Put`, `Get`, `Delete` and the handlers accept any key, including the empty one.
- In the GET handler's branch for an error other than not-found
  (main.go:59-61), the handler writes the 500 error and does not return. It
  then writes the value too, so `Respond` puts the value after the error text.
  In the DELETE handler's error branch (main.go:44-46), the later
  `WriteHeader(200)` has no effect and the status stays 500. Neither branch can
  be reached, because `Get` fails only with the not-found error and `Delete`
  never fails. The handler methods prove this with `assert false` in those
  branches. The same holds for the PUT handler's branch at main.go:79-81, since
  `Put` never fails.

## Model

| member | source | states |
|---|---|---|
| `KVStore.Lookup` | main.go:25-32 | `Get` succeeds exactly when the key is present and then returns its value; for an absent key it returns the empty string and the not-found error, which names the key and matches the sentinel |
| `KVStore.Store.constructor` | main.go:16 | the store starts empty |
| `KVStore.Store.Put` | main.go:34-37 | the key is mapped to the new value, inserted or overwritten, every other mapping is kept, and the error is always nil |
| `KVStore.Store.Get` | main.go:25-32 | returns what `Lookup` gives for the current store: the value with nil error when the key is present, otherwise `""` and `NoSuchKey(key)`; the store is not changed |
| `KVStore.Store.Delete` | main.go:19-23 | the key is absent afterwards, every other mapping is kept, and the error is nil whether or not the key was present |
| `KVStore.PutThenGet` | main.go:25-37 | after `Put(k, v)`, `Get(k)` returns `v` with no error |
| `KVStore.PutOverwrites` | main.go:34-37 | a second `Put` under the same key replaces the first value and leaves no trace of it |
| `KVStore.PutFrame` | main.go:34-37 | `Put(k, v)` leaves what `Get` returns for every other key unchanged |
| `KVStore.DeleteThenGet` | main.go:19-32 | after `Delete(k)`, `Get(k)` returns the not-found error naming `k` |
| `KVStore.DeleteFrame` | main.go:19-23 | `Delete(k)` leaves what `Get` returns for every other key unchanged |
| `KVStore.DeleteIdempotent` | main.go:19-23 | deleting twice gives the same store as deleting once, and deleting an absent key changes nothing |
| `Handlers.Respond` | main.go:39-85 | the not-found error gives 404 with the error as body, and every other error gives 500; success gives 201 for PUT, and 200 for GET (value as body) and DELETE (empty body) |
| `Handlers.Step` | main.go:39-85 | GET never changes the store and a PUT whose body read failed leaves it untouched; a read body is stored and answered 201; DELETE removes the key and answers 200; GET answers 200 with the value or 404 naming the key; the only 500 is a failed body read |
| `Handlers.PutHandler` | main.go:66-85 | on a `Store`: a failed body read answers 500 and changes nothing, otherwise the body is stored under the key and the answer is 201, as `Step` says |
| `Handlers.GetHandler` | main.go:51-64 | on a `Store`: answers 200 with the value exactly when the key is present and 404 exactly when it is absent, as `Step` says; the 500 branch is proved unreachable |
| `Handlers.DeleteHandler` | main.go:39-49 | on a `Store`: removes the key and answers 200, as `Step` says; the 500 branch is proved unreachable |
| `Sessions.Serve` | main.go:87-94 | requests are served in order against one store; there is one response per request, and a run of GET requests alone leaves the store as it was |
| `Sessions.LastWriteWins` | main.go:19-37 | after any run, `Get(k)` returns the last value stored under `k`, or the not-found error if the last write to `k` was a delete; a key the run never wrote reads as before |
| `Sessions.ServerErrorOnlyOnBodyReadFailure` | main.go:39-85 | in any run, a response has status 500 exactly when its request is a PUT whose body could not be read |
| `Sessions.GetAnswersLastWrite` | main.go:51-64 | from a fresh store, a GET answers 200 with the last value stored under its key, and 404 naming the key when the key was never written or was deleted last |
| `Sessions.AliceRun` | main.go:39-85 | PUT alice "42" answers 201, GET alice 200 with "42", DELETE alice 200, and then GET alice 404 naming alice |

## Left out

- Server start-up, `gorilla/mux` routing and path-variable extraction, and `log.Fatal` on a failed listen (main.go:87-94) are library calls and I/O. A request arrives with its key already extracted, and `Serve` stands for requests dispatched one at a time.
- The route `/v1/{key}` (main.go:89-91) only hands a handler a non-empty path segment without `/`; any other path gets the router's own 404. The keys of a `Request` are not restricted that way, so the model also covers keys the server can never receive.
- Reading the body with `io.ReadAll` and closing it (main.go:70-71) are I/O. The handler gets the outcome of the read as an input: the bytes, or an error.
- The bytes of error messages are not modelled, including the `%q` quoting of the key (main.go:28) and the newline `http.Error` appends. A response body carries the error value, which holds the not-found kind and the key.
- Response headers that `http.Error` sets and the `ResponseWriter` itself are library behaviour. A response is its status and the sequence of chunks written.
- Concurrent requests race on the unsynchronised map in the program, and that behaviour is undefined. The model serves requests one after another.
- Values are Go strings built from raw bytes. The model uses `string`, with one character standing for one byte; no encoding is involved.
