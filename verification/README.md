# jsondb, modelled in Dafny

jsondb is an embedded key-value store held in memory and backed by one JSON
file. A store keeps a map from string keys to serialized JSON payloads
(`json.RawMessage`), the options it was opened with and the absolute path of
its file. `Set`/`SetRaw`/`Delete` change the map and then, when the `OptSync`
option was given, rewrite the whole file; `Save` rewrites it on request;
`Get`/`GetRaw`/`Iter` only read the map; `Open` loads the file, first writing
`{}` into it when its content is blank.

The model is a functional state machine:

- `oracles.dfy` (module `Oracles`) holds the collaborators as function-valued
  fields. `Env` is the document codec and the file system: marshal the whole map,
  unmarshal a file, overwrite the file. `Codec<V>` is the value codec used by
  `Set` and `Get`. `OpenIo` records what the file system reported during `Open`.
  Every one of them may fail, and every property holds for any choice of them.
- `text.dfy` (module `Text`) defines blank content: bytes that Go's `strings.TrimSpace`
  trims to nothing. White space is read as UTF-8 runes accepted by `unicode.IsSpace`.
- `jsondb.dfy` (module `JsonDb`) holds the `Store` datatype (options, path, map,
  and `disk`, the content of the backing file) and one pure function per
  operation, which returns the next store and the outcome. The error taxonomy is
  `NotFound`, `JsonError`, `SyncError`, plus Open's own failures.
- `iteration.dfy` (module `Iteration`) models `Iter` as a loop over an enumeration
  of the keys. The visitor threads its own state and reports whether it failed.
  The loop is proved equal to a recursive reference walk, and the stopping
  behaviour is proved about that walk.
- `properties.dfy` (module `Properties`) relates operations to each other:
  read-after-write, delete twice, the auto-sync switch, failed syncs, reopen
  after save.

The file's content is an ordinary field of `Store` rather than a ghost one, so
that the operations' results can be compared in contracts. `Get`, `GetRaw`
and `Iter` return no store at all, so by construction they change neither
the map nor the file.

The documented invariant that the map is always encodable as a whole is not
enforced by the code. `SetRaw` stores any bytes, and `json.Marshal` then
rejects an invalid payload at every later sync. The model follows the code:
`marshalDoc` may fail on any map, and a mutation whose sync fails in this way
still stays in memory (`Properties.SetJsonErrorAfterMutation`).

## Model

| member | source | states |
|---|---|---|
| JsonDb.Open | jsondb.go:36-73 | Open succeeds exactly when the file opens, its path resolves, it can be read, a blank file takes the `{}` write, and the decoded document is a map. Blank content decodes `{}` and leaves the file as the content followed by `{}`. Other content is decoded as it is and left unchanged. Each I/O failure gives its own error: open, path resolution, read, and the `{}` write on a blank file (`CannotWriteNew`). Undecodable content gives `InvalidContent`. |
| JsonDb.Sync | jsondb.go:83-94 | Sync never changes the map, options or path. It passes exactly when the file then holds the encoding of the map and the write succeeded. A marshal failure gives `JsonError` and no write. A write failure gives `SyncError` and leaves what the failed write left. No other error is possible. |
| JsonDb.Save | jsondb.go:76-81 | Save never changes the map, options or path. It passes exactly when the file then holds the encoding of the map and the write succeeded. A marshal failure gives `JsonError` and no write. A write failure gives `SyncError`. In every case it is the same full overwrite as sync. |
| JsonDb.SyncIfNeeded | jsondb.go:96-104 | Without `OptSync` the store is untouched and the call passes. With it, the result is exactly that of a sync. The map never changes. |
| JsonDb.SetRaw | jsondb.go:120-127 | k is bound to the given payload, every other binding is kept, and options and path are unchanged. The outcome and file are those of a conditional sync of the already-updated map, so a failed sync keeps the mutation. |
| JsonDb.Set | jsondb.go:106-118 | An encoding failure returns `JsonError` and the store unchanged. Otherwise k is bound to the encoded bytes, everything else is kept, and then the conditional sync runs on the updated map. |
| JsonDb.Get | jsondb.go:129-143 | `NotFound` is returned exactly when the key is absent, and then the destination is untouched. Otherwise the destination is what the decoder left, and the call passes exactly when decoding succeeded. It fails with `JsonError` otherwise. |
| JsonDb.GetRaw | jsondb.go:145-155 | It returns a payload exactly when the key is present, and that payload is the stored one. Otherwise it returns `NotFound`. |
| JsonDb.Delete | jsondb.go:157-164 | k is unbound and every other binding is kept. The outcome and file are those of a conditional sync of the already-updated map. |
| Iteration.Iter | jsondb.go:166-175 | The loop calls the visitor and returns its final state and the keys it was called on, exactly as the reference walk `Walk` does: in enumeration order, stopping right after the first call that returns an error. |
| Iteration.WalkVisitsPrefix | jsondb.go:170-174 | The visited keys are a prefix of the enumeration order. |
| Iteration.WalkStopsAtFirstError | jsondb.go:170-174 | Every call before the last returned no error. The walk ends before the last key only right after a call that returned an error. The visitor's final state is its state after exactly the calls made. |
| Iteration.WalkVisitsAllWithoutError | jsondb.go:170-174 | When no call returns an error, every key of the enumeration is visited, in order. |
| Iteration.WalkCallsDistinctKeys | jsondb.go:170 | Over an enumeration of the map, the visitor is called only on keys present in the map, each at most once. |
| Iteration.WalkCoversStore | jsondb.go:170-174 | Over an enumeration of the map, if no call returns an error, every entry of the map is visited. |
| Text.AsciiSpacesAreBlank | jsondb.go:54 | Any content made only of ASCII white space (tab, newline, vertical tab, form feed, carriage return, space) counts as blank, the empty content included. |
| Text.ObjectIsNotBlank | jsondb.go:54 | Content starting with `{` is never blank. |
| Properties.SetRawThenGetRaw | jsondb.go:120-127 | After SetRaw(k, v), GetRaw(k) returns exactly v, and any other key reads as before, whatever the sync outcome. |
| Properties.SetThenGet | jsondb.go:106-118 | If the codec decodes v's encoding back to v, Get(k) after Set(k, v) yields v and passes, and other keys read as before. |
| Properties.GetAbsentDoesNotDecode | jsondb.go:133-136 | For an absent key, Get gives the same `NotFound` and untouched destination under any two codecs, so no decoding happens. GetRaw returns `NotFound`. |
| Properties.DeleteThenGetRaw | jsondb.go:157-164 | After Delete(k), GetRaw(k) is `NotFound` and other keys read as before. |
| Properties.DeleteTwice | jsondb.go:157-164 | Deleting twice leaves the same map as deleting once. Without auto-sync both calls pass. |
| Properties.DeleteAbsentIsNoOp | jsondb.go:161-163 | Without auto-sync, deleting an absent key returns the same store and no error. |
| Properties.AutoSyncOffLeavesDisk | jsondb.go:96-104 | Without `OptSync`, SetRaw, Delete and Set leave the file content as it was. SetRaw and Delete pass. Set passes exactly when the value encodes. |
| Properties.AutoSyncOnPersists | jsondb.go:96-104 | With `OptSync`, a successful SetRaw, Delete or Set leaves the file holding exactly the encoding of the new map. |
| Properties.FailedSyncKeepsMutation | jsondb.go:115-126 | With `OptSync` and a failing write, SetRaw, Set and Delete each return `SyncError`. Each one's change to the map is still visible afterwards. |
| Properties.SetJsonErrorAfterMutation | jsondb.go:110-117 | With `OptSync`, if the value encodes but the whole map does not, Set returns `JsonError` even though k is already bound to the encoded value. |
| Properties.OpenBlankIsEmpty | jsondb.go:54-66 | If `{}` decodes to the empty map, opening blank content yields an empty store whose file is the content followed by `{}`. |
| Properties.OpenWhitespaceIsEmpty | jsondb.go:54-66 | The empty file and any ASCII white space open to an empty map, given the same codec fact. |
| Properties.OpenRejectsMalformed | jsondb.go:63-66 | Non-blank content that does not decode gives `InvalidContent` and no store. |
| Properties.SaveThenReopen | jsondb.go:36-94 | Suppose Save succeeds, the codec decodes its output back to the map, and that output is a JSON object. Then opening the written file yields a store with the same map. |

## Left out

- Locking: the `sync.RWMutex` and all concurrency are left out. Each operation is one atomic step, which is what the lock guarantees.
- File system calls (`os.OpenFile`, `io.ReadAll`, `file.Write`, `os.WriteFile`, `filepath.Abs`) are left out. They become the `OpenIo` record and the `Env.write` oracle. File permissions (0o755) and closing the file are not modelled.
- JSON codecs: `sonic.Marshal`, `sonic.Unmarshal` and `json.Marshal` are left out. They are the uninterpreted, fallible fields of `Codec` and `Env`. Facts about them, such as decoding an encoding back or `{}` giving the empty map, appear only as lemma hypotheses.
- Wrapped errors: `errors.Join` wrapping is dropped. An error is its sentinel class (`JsonError`, `SyncError`), and Open's formatted messages become `OpenFailure` values.
- Map iteration order: Go map order is a parameter of `Iter`, required to list every key exactly once.
- Iter's visitor is a pure state-passing function. Side effects beyond its own state are not modelled, including calls back into the store, which would deadlock under the read lock.
- JsonDb.Open: a failed open returns only an error, with no file content, so the model does not say what the failure leaves on disk. `O_CREATE` may already have created the file (jsondb.go:37), and a blank file may already hold the `{}` write (jsondb.go:57) when decoding fails (jsondb.go:64-65).
- Payload aliasing is left out. `SetRaw` and `GetRaw` share the caller's byte slice, but values here are immutable.
- The JSON document `null`: with `encoding/json`-style decoding it gives a nil map, and the next `Set` would panic. The model's decoder always returns a map, so this case is not modelled.
