/**
 Properties that relate several operations of the store: reads after writes,
 repeated deletes, the auto-sync switch, failed syncs, and reopening a saved
 file. Codec behaviour the store cannot guarantee by itself (that decoding an
 encoding gives the value back, that `{}` decodes to the empty map) enters as
 a hypothesis about the particular values involved.
 */
module Properties {
  import opened Oracles
  import opened Text
  import opened JsonDb

  /** A raw write is read back exactly, and no other key is affected,
      whether or not the sync that followed succeeded. */
  lemma SetRawThenGetRaw(s: Store, k: string, v: Bytes, env: Env, other: string)
    requires other != k
    ensures GetRaw(SetRaw(s, k, v, env).store, k) == Ok(v)
    ensures GetRaw(SetRaw(s, k, v, env).store, other) == GetRaw(s, other)
  {
  }

  /** A value written with Set is read back with Get, provided the codec
      decodes that value's encoding into the destination; other keys read as
      before. */
  lemma SetThenGet<V>(s: Store, k: string, v: V, dst: V, codec: Codec<V>, env: Env, other: string)
    requires codec.marshal(v).Some?
    requires codec.unmarshal(codec.marshal(v).value, dst) == Decoded(v, true)
    requires other != k
    ensures Get(Set(s, k, v, codec, env).store, k, dst, codec) == Got(v, Pass)
    ensures Get(Set(s, k, v, codec, env).store, other, dst, codec) == Get(s, other, dst, codec)
  {
  }

  /** A read of an absent key never consults the decoder: any two codecs give
      the same not-found answer and the destination comes back untouched. */
  lemma GetAbsentDoesNotDecode<V>(s: Store, k: string, dst: V, c1: Codec<V>, c2: Codec<V>)
    requires k !in s.data
    ensures Get(s, k, dst, c1) == Get(s, k, dst, c2) == Got(dst, Fail(NotFound))
    ensures GetRaw(s, k) == Err(NotFound)
  {
  }

  /** After Delete the key is not found, and every other key reads as before. */
  lemma DeleteThenGetRaw(s: Store, k: string, env: Env, other: string)
    requires other != k
    ensures GetRaw(Delete(s, k, env).store, k) == Err(NotFound)
    ensures GetRaw(Delete(s, k, env).store, other) == GetRaw(s, other)
  {
  }

  /** Deleting twice leaves the same map as deleting once; without auto-sync
      neither call returns an error. */
  lemma DeleteTwice(s: Store, k: string, env: Env)
    ensures Delete(Delete(s, k, env).store, k, env).store.data == Delete(s, k, env).store.data
    ensures !AutoSync(s) ==>
      Delete(s, k, env).outcome == Pass && Delete(Delete(s, k, env).store, k, env).outcome == Pass
  {
  }

  /** Without auto-sync, deleting an absent key changes nothing and succeeds. */
  lemma DeleteAbsentIsNoOp(s: Store, k: string, env: Env)
    requires k !in s.data && !AutoSync(s)
    ensures Delete(s, k, env) == Step(s, Pass)
  {
  }

  /** Without auto-sync, mutations never touch the file and never fail
      except on encoding a value. */
  lemma AutoSyncOffLeavesDisk<V>(s: Store, k: string, v: V, raw: Bytes, codec: Codec<V>, env: Env)
    requires !AutoSync(s)
    ensures SetRaw(s, k, raw, env).store.disk == s.disk && SetRaw(s, k, raw, env).outcome == Pass
    ensures Delete(s, k, env).store.disk == s.disk && Delete(s, k, env).outcome == Pass
    ensures Set(s, k, v, codec, env).store.disk == s.disk
    ensures Set(s, k, v, codec, env).outcome == Pass <==> codec.marshal(v).Some?
  {
  }

  /** With auto-sync, a mutation that reports success has left the file
      holding exactly the encoding of the new map. */
  lemma AutoSyncOnPersists<V>(s: Store, k: string, v: V, raw: Bytes, codec: Codec<V>, env: Env)
    requires AutoSync(s)
    ensures SetRaw(s, k, raw, env).outcome == Pass ==> Persisted(SetRaw(s, k, raw, env).store, env)
    ensures Delete(s, k, env).outcome == Pass ==> Persisted(Delete(s, k, env).store, env)
    ensures Set(s, k, v, codec, env).outcome == Pass ==> Persisted(Set(s, k, v, codec, env).store, env)
  {
  }

  /** When every file write fails under auto-sync, SetRaw, Set and Delete
      each report a sync error, and each one's change to the map stays in
      memory. */
  lemma FailedSyncKeepsMutation<V>(s: Store, k: string, v: V, raw: Bytes, codec: Codec<V>, env: Env)
    requires AutoSync(s)
    requires forall m :: env.marshalDoc(m).Some?
    requires forall b :: env.write(b).WriteFailed?
    ensures SetRaw(s, k, raw, env).outcome == Fail(SyncError)
    ensures GetRaw(SetRaw(s, k, raw, env).store, k) == Ok(raw)
    ensures Delete(s, k, env).outcome == Fail(SyncError)
    ensures GetRaw(Delete(s, k, env).store, k) == Err(NotFound)
    ensures codec.marshal(v).Some? ==>
      && Set(s, k, v, codec, env).outcome == Fail(SyncError)
      && GetRaw(Set(s, k, v, codec, env).store, k) == Ok(codec.marshal(v).value)
  {
  }

  /** A Set may return a JSON error although the map did change: the value
      encoded, but the whole document did not. */
  lemma SetJsonErrorAfterMutation<V>(s: Store, k: string, v: V, codec: Codec<V>, env: Env)
    requires AutoSync(s)
    requires codec.marshal(v).Some?
    requires env.marshalDoc(s.data[k := codec.marshal(v).value]) == None
    ensures Set(s, k, v, codec, env).outcome == Fail(JsonError)
    ensures GetRaw(Set(s, k, v, codec, env).store, k) == Ok(codec.marshal(v).value)
  {
  }

  /** Opening a blank file gives an empty store, provided `{}` decodes to the
      empty map; the file then ends in `{}`. */
  lemma OpenBlankIsEmpty(opts: seq<Opt>, path: string, content: Bytes, env: Env)
    requires Blank(content)
    requires env.unmarshalDoc(EmptyDoc) == Some(map[])
    ensures Open(opts, OpenIo(true, Some(path), Some(content), true), env)
      == Ok(Store(opts, path, map[], content + EmptyDoc))
  {
  }

  /** The empty file and a file of ASCII white space both open empty. */
  lemma OpenWhitespaceIsEmpty(opts: seq<Opt>, path: string, content: Bytes, env: Env)
    requires forall i :: 0 <= i < |content| ==> content[i] in AsciiSpaces
    requires env.unmarshalDoc(EmptyDoc) == Some(map[])
    ensures Open(opts, OpenIo(true, Some(path), Some(content), true), env).Ok?
    ensures Open(opts, OpenIo(true, Some(path), Some(content), true), env).value.data == map[]
  {
    AsciiSpacesAreBlank(content);
  }

  /** Content that is not blank and does not decode produces no store. */
  lemma OpenRejectsMalformed(opts: seq<Opt>, path: string, content: Bytes, written: bool, env: Env)
    requires !Blank(content)
    requires env.unmarshalDoc(content) == None
    ensures Open(opts, OpenIo(true, Some(path), Some(content), written), env)
      == Err(OpenError(InvalidContent))
  {
  }

  /** Persistence: a successful Save, then opening the file it wrote, gives
      back the same map, provided the document codec decodes its own output
      and that output is a JSON object. */
  lemma SaveThenReopen(s: Store, opts: seq<Opt>, env: Env)
    requires Save(s, env).outcome == Pass
    requires env.unmarshalDoc(Save(s, env).store.disk) == Some(s.data)
    requires |Save(s, env).store.disk| > 0 && Save(s, env).store.disk[0] == 0x7B
    ensures Open(opts, OpenIo(true, Some(s.path), Some(Save(s, env).store.disk), true), env)
      == Ok(Store(opts, s.path, s.data, Save(s, env).store.disk))
  {
    ObjectIsNotBlank(Save(s, env).store.disk);
  }
}
