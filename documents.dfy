/**
 * Decoded documents and the DataHolder view over them. The encodings
 * themselves (JSON, NBT, YAML, ...) belong to the foreign Config class and are
 * not modelled: a document is what `Config::getAll()` hands back.
 */
module Documents {
  import opened Wrappers

  /** A field value of a decoded document. */
  datatype Value =
    | Str(s: string)
    | Int(i: int)
    | Float(f: real)
    | Bool(b: bool)
    | List(items: seq<Value>)
    | Fields(fields: map<string, Value>)
  {
    /** What PHP's `is_array` accepts: a list or a string-keyed map. */
    predicate IsArray()
    {
      List? || Fields?
    }
  }

  /** A whole decoded document: field names to values. */
  type Document = map<string, Value>

  /** The errors the modelled code can raise. */
  datatype Error =
    | MissingField(key: string)
    | WrongType(key: string)
    | UnknownFormat(storageType: string)
    | UnsupportedType(configType: int)
    | ArchiveNotOpened(path: string)

  /** The typed view over one document that storage and game code exchange. */
  datatype DataHolder = DataHolder(doc: Document) {

    /** The string stored under `key`; absence or another type is an error, never a coercion. */
    function GetString(key: string): (r: Result<string, Error>)
      ensures r.Ok? <==> key in doc && doc[key].Str?
      ensures r.Ok? ==> doc[key] == Str(r.value)
    {
      if key !in doc then Err(MissingField(key))
      else if doc[key].Str? then Ok(doc[key].s)
      else Err(WrongType(key))
    }

    /** The raw document, as written back on save. */
    function GetAll(): Document
    {
      doc
    }
  }
}
