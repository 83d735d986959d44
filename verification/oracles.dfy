/**
 The collaborators the store relies on but does not implement: the JSON codec
 (two Go libraries: sonic for values, encoding/json for the whole
 document) and the file system. Each is a function-valued field, so that every
 operation of the store is stated for ANY codec and ANY file system, failures
 included.
 */
module Oracles {

  /** One byte of a file or of a serialized value. */
  newtype byte = x: int | 0 <= x < 256

  type Bytes = seq<byte>

  datatype Option<+T> = None | Some(value: T)

  /** What a whole-file overwrite did. A failed write may already have
      truncated or partly written the file, so it reports what is left. */
  datatype Written = Written | WriteFailed(residue: Bytes)

  /** The document codec and the file system the store syncs through.
      - marshalDoc: serializes the whole key/value map (fails, for instance,
        on a stored payload that is not valid JSON);
      - unmarshalDoc: decodes a file's content into a key/value map;
      - write: overwrites the backing file with the given content. */
  datatype Env = Env(
    marshalDoc: map<string, Bytes> -> Option<Bytes>,
    unmarshalDoc: Bytes -> Option<map<string, Bytes>>,
    write: Bytes -> Written)

  /** Result of decoding into a caller's destination: the destination as the
      decoder left it (possibly partly filled on failure) and whether it
      succeeded. */
  datatype Decoded<V> = Decoded(dst: V, ok: bool)

  /** The value codec used by Set and Get, for values of type V. */
  datatype Codec<!V> = Codec(
    marshal: V -> Option<Bytes>,
    unmarshal: (Bytes, V) -> Decoded<V>)

  /** What the file system did while a store was being opened: whether the
      file could be opened (or created), the absolute form of its path if it
      could be resolved, its full content if it could be read, and whether
      writing the empty document into a blank file succeeded. */
  datatype OpenIo = OpenIo(
    fileOpened: bool,
    absPath: Option<string>,
    content: Option<Bytes>,
    bootstrapWritten: bool)
}
