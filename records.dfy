/**
 * Whole-document reads and writes through the Config class, with the
 * filesystem abstracted to the documents it holds: a path is in the disk map
 * exactly when `file_exists` would say so, and it maps to the document that
 * `Config::getAll()` would decode from it.
 */
module Records {
  import opened Wrappers
  import opened Documents

  /** Existing record files and their decoded contents. */
  type Disk = map<string, Document>

  /** A connected player; only its stable name matters here. */
  datatype Player = Player(name: string) {
    function GetName(): string
    {
      name
    }
  }

  /** The `Player|string` argument of `getPlayerData`. */
  datatype PlayerRef = Online(player: Player) | ByName(rawName: string) {

    /**
     * The key the record is filed under: a connected player is resolved to
     * its name, and a string is already the name.
     */
    function Key(): (k: string)
      ensures Online? ==> k == player.GetName()
      ensures ByName? ==> k == rawName
    {
      match this
      case Online(p) => p.GetName()
      case ByName(n) => n
    }
  }

  /** `file_exists($path) ? new DataHolder((new Config($path, JSON))->getAll()) : null`. */
  function Load(disk: Disk, path: string): (r: Option<DataHolder>)
    ensures r.None? <==> path !in disk
    ensures r.Some? ==> r.value.GetAll() == disk[path]
  {
    if path in disk then Some(DataHolder(disk[path])) else None
  }

  /**
   * The type numbers the Config class can decode and encode: PROPERTIES and
   * CNF (0), JSON (1), YAML (2), SERIALIZED (4), ENUM (5). Any other number
   * makes Config throw when it parses or writes a file.
   */
  const ConfigTypes: set<int> := {0, 1, 2, 4, 5}

  /**
   * The same read with the encoding looked up in a format table. An unknown
   * storage type yields no number, which the strict-typed Config constructor
   * rejects; a number Config has no parser for is rejected when the file is
   * parsed. Either way the error comes only once the file is found to exist.
   */
  function LoadAs(disk: Disk, path: string, formats: map<string, int>, storageType: string): (r: Result<Option<DataHolder>, Error>)
    ensures r == Ok(None) <==> path !in disk
    ensures r.Err? <==> path in disk && (storageType !in formats || formats[storageType] !in ConfigTypes)
    ensures r.Ok? && r.value.Some? ==> r.value.value.GetAll() == disk[path]
  {
    if path !in disk then Ok(None)
    else if storageType !in formats then Err(UnknownFormat(storageType))
    else if formats[storageType] !in ConfigTypes then Err(UnsupportedType(formats[storageType]))
    else Ok(Load(disk, path))
  }

  /**
   * Config's `fillDefaults` for one field, with `d` the default and `f` the
   * value the file already has. A scalar default never replaces a value. An
   * array default replaces a scalar value, and it is merged into an array
   * value of the same shape key by key: lists index by index, maps field by
   * field, recursively. A file list against a default map, or the reverse,
   * keeps the file's value.
   */
  function FillValue(d: Value, f: Value): (r: Value)
    ensures !d.IsArray() ==> r == f
    ensures d.IsArray() && !f.IsArray() ==> r == d
    ensures d.List? && f.List? ==>
              && r.List?
              && |r.items| == (if |d.items| < |f.items| then |f.items| else |d.items|)
              && (forall i :: 0 <= i < |d.items| && i < |f.items| ==> r.items[i] == FillValue(d.items[i], f.items[i]))
              && (forall i :: |d.items| <= i < |f.items| ==> r.items[i] == f.items[i])
              && (forall i :: |f.items| <= i < |d.items| ==> r.items[i] == d.items[i])
    ensures d.Fields? && f.Fields? ==>
              && r.Fields?
              && r.fields.Keys == d.fields.Keys + f.fields.Keys
              && (forall k :: k in d.fields && k in f.fields ==> r.fields[k] == FillValue(d.fields[k], f.fields[k]))
              && (forall k :: k in f.fields && k !in d.fields ==> r.fields[k] == f.fields[k])
              && (forall k :: k in d.fields && k !in f.fields ==> r.fields[k] == d.fields[k])
    decreases d
  {
    match d
    case List(ds) =>
      (match f
       case List(fs) =>
         var n := if |ds| < |fs| then |fs| else |ds|;
         List(seq(n, i requires 0 <= i < n =>
           if i < |ds| && i < |fs| then FillValue(ds[i], fs[i])
           else if i < |fs| then fs[i]
           else ds[i]))
       case Fields(_) => f
       case _ => d)
    case Fields(dm) =>
      (match f
       case Fields(fm) =>
         Fields(map k | k in dm.Keys + fm.Keys ::
           if k in dm && k in fm then FillValue(dm[k], fm[k])
           else if k in fm then fm[k]
           else dm[k])
       case List(_) => f
       case _ => d)
    case _ => f
  }

  /**
   * Config's filling of a whole document: fields the file lacks are taken
   * from `defaults`; a field both have is filled as `FillValue` says, so it
   * keeps its value unless the default there is an array.
   */
  function FillDefaults(defaults: Document, doc: Document): (r: Document)
    ensures r.Keys == doc.Keys + defaults.Keys
    ensures forall k :: k in doc && (k !in defaults || !defaults[k].IsArray()) ==> r[k] == doc[k]
    ensures forall k :: k in defaults && k !in doc ==> r[k] == defaults[k]
    ensures forall k :: k in defaults && k in doc ==> r[k] == FillValue(defaults[k], doc[k])
  {
    FillValue(Fields(defaults), Fields(doc)).fields
  }

  /** Filling a value with itself as default gives it back. */
  lemma {:induction false} FillSelf(v: Value)
    ensures FillValue(v, v) == v
    decreases v
  {
    match v
    case List(vs) =>
      forall i | 0 <= i < |vs|
        ensures FillValue(v, v).items[i] == vs[i]
      {
        FillSelf(vs[i]);
      }
    case Fields(vm) =>
      forall k | k in vm
        ensures FillValue(v, v).fields[k] == vm[k]
      {
        FillSelf(vm[k]);
      }
    case _ =>
  }

  /** Filling twice with the same default changes nothing more than filling once. */
  lemma {:induction false} FillIdempotent(d: Value, f: Value)
    ensures FillValue(d, FillValue(d, f)) == FillValue(d, f)
    decreases d
  {
    var r := FillValue(d, f);
    match d
    case List(ds) =>
      if f.List? {
        forall i | 0 <= i < |r.items|
          ensures FillValue(d, r).items[i] == r.items[i]
        {
          if i < |ds| && i < |f.items| {
            FillIdempotent(ds[i], f.items[i]);
          } else if i < |ds| {
            FillSelf(ds[i]);
          }
        }
      } else if !f.IsArray() {
        FillSelf(d);
      }
    case Fields(dm) =>
      if f.Fields? {
        forall k | k in r.fields
          ensures FillValue(d, r).fields[k] == r.fields[k]
        {
          if k in dm && k in f.fields {
            FillIdempotent(dm[k], f.fields[k]);
          } else if k in dm {
            FillSelf(dm[k]);
          }
        }
      } else if !f.IsArray() {
        FillSelf(d);
      }
    case _ =>
  }

  /**
   * `(new Config($path, JSON, $holder->getAll()))->save()`: the holder's
   * document is Config's default content. A new file gets it whole; an
   * existing file is read back, the holder is filled into it as
   * `FillDefaults` says, and that is what is saved.
   */
  function Store(disk: Disk, path: string, holder: DataHolder): (d: Disk)
    ensures d.Keys == disk.Keys + {path}
    ensures path !in disk ==> Load(d, path) == Some(holder)
    ensures path in disk ==> d[path] == FillDefaults(holder.GetAll(), disk[path])
    ensures forall p :: p in disk && p != path ==> d[p] == disk[p]
  {
    if path in disk then disk[path := FillDefaults(holder.GetAll(), disk[path])]
    else disk[path := holder.GetAll()]
  }

  /**
   * A save cannot overwrite a field the file has unless the holder's value
   * there is an array; so over a file that already has all of the holder's
   * fields, none of them an array, a save changes nothing.
   */
  lemma StoreCannotOverwrite(disk: Disk, path: string, holder: DataHolder)
    requires path in disk
    ensures forall k :: k in disk[path] && (k !in holder.GetAll() || !holder.GetAll()[k].IsArray()) ==>
              Store(disk, path, holder)[path][k] == disk[path][k]
    ensures (forall k :: k in holder.GetAll() ==> k in disk[path] && !holder.GetAll()[k].IsArray()) ==>
              Store(disk, path, holder) == disk
  {
    if forall k :: k in holder.GetAll() ==> k in disk[path] && !holder.GetAll()[k].IsArray() {
      assert Store(disk, path, holder)[path] == disk[path];
    }
  }

  /** Saving the same holder twice leaves the disk as saving it once. */
  lemma StoreIdempotent(disk: Disk, path: string, holder: DataHolder)
    ensures Store(Store(disk, path, holder), path, holder) == Store(disk, path, holder)
  {
    var once := Store(disk, path, holder);
    var h := holder.GetAll();
    if path in disk {
      FillIdempotent(Fields(h), Fields(disk[path]));
    } else {
      FillSelf(Fields(h));
    }
    assert Store(once, path, holder)[path] == once[path];
  }

  /**
   * An array in the holder replaces a scalar the file has: a "spawn" string
   * in the file becomes the holder's map.
   */
  lemma ArrayReplacesScalar()
    ensures var file := map["name" := Str("a"), "spawn" := Str("old")];
            var holder := DataHolder(map["name" := Str("a"), "spawn" := Fields(map["x" := Int(1)])]);
            Store(map["p" := file], "p", holder)["p"] ==
              map["name" := Str("a"), "spawn" := Fields(map["x" := Int(1)])]
  {
  }

  /**
   * Lists merge index by index: the file's first spawn stays, and only the
   * holder's second spawn is added.
   */
  lemma ListsMergeByIndex()
    ensures var file := map["spawns" := List([List([Int(1), Int(2), Int(3)])])];
            var holder := DataHolder(map["spawns" := List([List([Int(4), Int(5), Int(6)]), List([Int(7), Int(8), Int(9)])])]);
            Store(map["p" := file], "p", holder)["p"] ==
              map["spawns" := List([List([Int(1), Int(2), Int(3)]), List([Int(7), Int(8), Int(9)])])]
  {
    var a, b, c := List([Int(1), Int(2), Int(3)]), List([Int(4), Int(5), Int(6)]), List([Int(7), Int(8), Int(9)]);
    assert FillValue(List([b, c]), List([a])).items == [FillValue(b, a), c];
    assert FillValue(b, a).items == a.items;
  }
}
