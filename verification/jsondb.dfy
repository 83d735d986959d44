/**
 The key-value store: an in-memory map from string keys to serialized JSON
 payloads, the options chosen when it was opened, the absolute path of its
 backing file and that file's content as last written. Every operation is one
 atomic step that returns the next store together with its outcome; the
 reader/writer lock of jsondb.go only serves to make them atomic.
 */
module JsonDb {
  import opened Oracles
  import opened Text

  /** Why opening a store failed. */
  datatype OpenFailure =
    | CannotOpen          // the file could not be opened or created
    | CannotResolvePath   // its absolute path could not be computed
    | CannotRead          // its content could not be read
    | CannotWriteNew      // writing `{}` into a blank file failed
    | InvalidContent      // the content is not a JSON object of payloads

  /** The error values the store returns. NotFound, JsonError and SyncError
      are the three sentinel errors callers test for; Open's errors are
      messages of their own. */
  datatype Error = NotFound | JsonError | SyncError | OpenError(cause: OpenFailure)

  datatype Outcome = Pass | Fail(error: Error)

  datatype Result<+T> = Ok(value: T) | Err(error: Error)

  /** An option flag: Go's `Option` is an int64. */
  newtype Opt = x: int | -0x8000_0000_0000_0000 <= x < 0x8000_0000_0000_0000

  /** Automatic sync after every mutation. */
  const OptSync: Opt := 0

  datatype Store = Store(opts: seq<Opt>, path: string, data: map<string, Bytes>, disk: Bytes)

  /** The store after an operation, and what the operation returned. */
  datatype Step = Step(store: Store, outcome: Outcome)

  /** A read into a caller's destination: the destination afterwards and the
      returned error, if any. */
  datatype Got<V> = Got(dst: V, outcome: Outcome)

  predicate AutoSync(s: Store) {
    OptSync in s.opts
  }

  /** The backing file holds exactly the document encoding of the map. */
  predicate Persisted(s: Store, env: Env) {
    env.marshalDoc(s.data) == Some(s.disk)
  }

  /** Only the map and the file may differ between s and t. */
  predicate SameIdentity(s: Store, t: Store) {
    t.opts == s.opts && t.path == s.path
  }

  /** m' is m with k bound to v and every other binding kept. */
  predicate Assigns(m: map<string, Bytes>, m': map<string, Bytes>, k: string, v: Bytes) {
    && m'.Keys == m.Keys + {k}
    && m'[k] == v
    && forall j :: j in m && j != k ==> m'[j] == m[j]
  }

  /** m' is m without k, every other binding kept. */
  predicate Removes(m: map<string, Bytes>, m': map<string, Bytes>, k: string) {
    && m'.Keys == m.Keys - {k}
    && forall j :: j in m' ==> m'[j] == m[j]
  }

  /** The document actually decoded when opening a file with this content:
      blank content stands for the empty object. */
  function LoadedDoc(content: Bytes): Bytes {
    if Blank(content) then EmptyDoc else content
  }

  /** Open a store from what the file system reported. A blank file gets
      `{}` written at its end (the offset the full read left behind), and
      `{}` is what gets decoded. */
  function Open(opts: seq<Opt>, io: OpenIo, env: Env): (r: Result<Store>)
    ensures r.Ok? <==>
      && io.fileOpened && io.absPath.Some? && io.content.Some?
      && (Blank(io.content.value) ==> io.bootstrapWritten)
      && env.unmarshalDoc(LoadedDoc(io.content.value)).Some?
    ensures r.Ok? ==>
      && r.value.opts == opts
      && r.value.path == io.absPath.value
      && env.unmarshalDoc(LoadedDoc(io.content.value)) == Some(r.value.data)
    ensures r.Ok? && Blank(io.content.value) ==> r.value.disk == io.content.value + EmptyDoc
    ensures r.Ok? && !Blank(io.content.value) ==> r.value.disk == io.content.value
    ensures !io.fileOpened ==> r == Err(OpenError(CannotOpen))
    ensures io.fileOpened && io.absPath.None? ==> r == Err(OpenError(CannotResolvePath))
    ensures io.fileOpened && io.absPath.Some? && io.content.None? ==> r == Err(OpenError(CannotRead))
    ensures (io.fileOpened && io.absPath.Some? && io.content.Some?
             && Blank(io.content.value) && !io.bootstrapWritten)
      ==> r == Err(OpenError(CannotWriteNew))
    ensures r.Err? ==> r.error.OpenError?
    ensures r == Err(OpenError(InvalidContent)) <==>
      && io.fileOpened && io.absPath.Some? && io.content.Some?
      && (Blank(io.content.value) ==> io.bootstrapWritten)
      && env.unmarshalDoc(LoadedDoc(io.content.value)).None?
  {
    if !io.fileOpened then Err(OpenError(CannotOpen))
    else if io.absPath.None? then Err(OpenError(CannotResolvePath))
    else if io.content.None? then Err(OpenError(CannotRead))
    else
      var content := io.content.value;
      if Blank(content) && !io.bootstrapWritten then Err(OpenError(CannotWriteNew))
      else
        var disk := if Blank(content) then content + EmptyDoc else content;
        match env.unmarshalDoc(LoadedDoc(content))
        case None => Err(OpenError(InvalidContent))
        case Some(m) => Ok(Store(opts, io.absPath.value, m, disk))
  }

  /** Serialize the whole map and overwrite the backing file with it. */
  function Sync(s: Store, env: Env): (r: Step)
    ensures SameIdentity(s, r.store) && r.store.data == s.data
    ensures r.outcome == Pass <==> Persisted(r.store, env) && env.write(r.store.disk) == Written
    ensures r.outcome == Fail(JsonError) <==> env.marshalDoc(s.data) == None
    ensures r.outcome == Fail(JsonError) ==> r.store.disk == s.disk
    ensures r.outcome == Fail(SyncError) <==>
      env.marshalDoc(s.data).Some? && env.write(env.marshalDoc(s.data).value).WriteFailed?
    ensures r.outcome == Fail(SyncError) ==>
      r.store.disk == env.write(env.marshalDoc(s.data).value).residue
    ensures r.outcome in {Pass, Fail(JsonError), Fail(SyncError)}
  {
    match env.marshalDoc(s.data)
    case None => Step(s, Fail(JsonError))
    case Some(content) =>
      match env.write(content)
      case Written => Step(s.(disk := content), Pass)
      case WriteFailed(residue) => Step(s.(disk := residue), Fail(SyncError))
  }

  /** Explicit flush: the same full overwrite as Sync, whatever the options. */
  function Save(s: Store, env: Env): (r: Step)
    ensures SameIdentity(s, r.store) && r.store.data == s.data
    ensures r.outcome == Pass <==> Persisted(r.store, env) && env.write(r.store.disk) == Written
    ensures r.outcome == Fail(JsonError) <==> env.marshalDoc(s.data) == None
    ensures r.outcome == Fail(JsonError) ==> r.store.disk == s.disk
    ensures r.outcome == Fail(SyncError) <==>
      env.marshalDoc(s.data).Some? && env.write(env.marshalDoc(s.data).value).WriteFailed?
    ensures r == Sync(s, env)
  {
    Sync(s, env)
  }

  /** Sync when, and only when, automatic sync was chosen at open time. */
  function SyncIfNeeded(s: Store, env: Env): (r: Step)
    ensures SameIdentity(s, r.store) && r.store.data == s.data
    ensures !AutoSync(s) ==> r == Step(s, Pass)
    ensures AutoSync(s) ==> r == Sync(s, env)
  {
    if OptSync in s.opts then Sync(s, env) else Step(s, Pass)
  }

  /** Store an already serialized payload under k, then sync if needed. */
  function SetRaw(s: Store, k: string, v: Bytes, env: Env): (r: Step)
    ensures SameIdentity(s, r.store)
    ensures Assigns(s.data, r.store.data, k, v)
    ensures r == SyncIfNeeded(r.store.(disk := s.disk), env)
  {
    SyncIfNeeded(s.(data := s.data[k := v]), env)
  }

  /** Encode v and store it under k, then sync if needed. An encoding
      failure leaves the store as it was. */
  function Set<V>(s: Store, k: string, v: V, codec: Codec<V>, env: Env): (r: Step)
    ensures codec.marshal(v) == None ==> r == Step(s, Fail(JsonError))
    ensures codec.marshal(v).Some? ==>
      && SameIdentity(s, r.store)
      && Assigns(s.data, r.store.data, k, codec.marshal(v).value)
      && r == SyncIfNeeded(r.store.(disk := s.disk), env)
  {
    match codec.marshal(v)
    case None => Step(s, Fail(JsonError))
    case Some(raw) => SyncIfNeeded(s.(data := s.data[k := raw]), env)
  }

  /** Decode the payload stored under k into dst. */
  function Get<V>(s: Store, k: string, dst: V, codec: Codec<V>): (r: Got<V>)
    ensures r.outcome == Fail(NotFound) <==> k !in s.data
    ensures k !in s.data ==> r.dst == dst
    ensures k in s.data ==> r.dst == codec.unmarshal(s.data[k], dst).dst
    ensures k in s.data ==> (r.outcome == Pass <==> codec.unmarshal(s.data[k], dst).ok)
    ensures r.outcome in {Pass, Fail(NotFound), Fail(JsonError)}
  {
    if k !in s.data then Got(dst, Fail(NotFound))
    else
      var d := codec.unmarshal(s.data[k], dst);
      if d.ok then Got(d.dst, Pass) else Got(d.dst, Fail(JsonError))
  }

  /** The payload stored under k, undecoded. */
  function GetRaw(s: Store, k: string): (r: Result<Bytes>)
    ensures r.Ok? <==> k in s.data
    ensures r.Ok? ==> r.value == s.data[k]
    ensures r.Err? ==> r.error == NotFound
  {
    if k in s.data then Ok(s.data[k]) else Err(NotFound)
  }

  /** Remove k if present, then sync if needed. */
  function Delete(s: Store, k: string, env: Env): (r: Step)
    ensures SameIdentity(s, r.store)
    ensures Removes(s.data, r.store.data, k)
    ensures r == SyncIfNeeded(r.store.(disk := s.disk), env)
  {
    SyncIfNeeded(s.(data := s.data - {k}), env)
  }
}
