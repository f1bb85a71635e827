/**
 * Map templates (src/minerware/arena/Map.php): the immutable Map built from a
 * map document, the process-wide catalog `Map::$maps`, and the provisioning of
 * a live world from a template's backup archive.
 */
module Arena {
  import opened Wrappers
  import opened Documents
  import opened Layout
  import opened PhpStrings

  /** A map template. Its two private fields are set by the constructor only. */
  datatype Map = Map(data: DataHolder, name: string) {

    /** The name agrees with the document's "name" field, as the constructor sets it. */
    predicate Valid()
    {
      data.GetString("name") == Ok(name)
    }

    function GetName(): string
    {
      name
    }

    function GetData(): DataHolder
    {
      data
    }

    /** The template's backup archive: `<name>.zip` in the backups directory of the plugin data folder. */
    function GetZip(dataFolder: string): (p: string)
      ensures IsPrefix(CollectionDir(dataFolder, "backups"), p)
      ensures p[|CollectionDir(dataFolder, "backups")|..] == GetName() + ".zip"
    {
      BackupZipPath(dataFolder, name)
    }
  }

  /** `new Map($data)`: takes the name from the "name" string field, or fails as getString does. */
  function NewMap(data: DataHolder): (r: Result<Map, Error>)
    ensures r.Ok? <==> data.GetString("name").Ok?
    ensures r.Ok? ==> r.value.Valid() && r.value.GetData() == data
    ensures r.Ok? ==> data.GetAll()["name"] == Str(r.value.GetName())
  {
    match data.GetString("name")
    case Ok(n) => Ok(Map(data, n))
    case Err(e) => Err(e)
  }

  // ---------------------------------------------------------------------
  // The catalog: an append-only list searched front to back

  /** The index of the first entry named `name`, if any. */
  function FirstIndexNamed(maps: seq<Map>, name: string): (r: Option<nat>)
    ensures r.Some? ==> r.value < |maps| && maps[r.value].name == name
    ensures r.Some? ==> forall j :: 0 <= j < r.value ==> maps[j].name != name
    ensures r.None? ==> forall j :: 0 <= j < |maps| ==> maps[j].name != name
    decreases |maps|
  {
    if |maps| == 0 then None
    else if maps[0].name == name then Some(0)
    else
      match FirstIndexNamed(maps[1..], name)
      case None => None
      case Some(i) => Some(i + 1)
  }

  /** What `getByName` specifies: the first entry with that name, or null. */
  function Find(maps: seq<Map>, name: string): (r: Option<Map>)
    ensures r.Some? ==> r.value.GetName() == name && r.value in maps
    ensures r.Some? ==> exists i :: 0 <= i < |maps| && maps[i] == r.value && forall j :: 0 <= j < i ==> maps[j].name != name
    ensures r.None? <==> forall j :: 0 <= j < |maps| ==> maps[j].name != name
  {
    match FirstIndexNamed(maps, name)
    case None => None
    case Some(i) => Some(maps[i])
  }

  /** How many catalog entries carry `name`. */
  function CountNamed(maps: seq<Map>, name: string): nat
    decreases |maps|
  {
    if |maps| == 0 then 0
    else (if maps[0].name == name then 1 else 0) + CountNamed(maps[1..], name)
  }

  /** `Map::$maps`: a public static list that code only appends to. */
  class MapCatalog {
    var maps: seq<Map>

    constructor ()
      ensures maps == []
    {
      maps := [];
    }

    /** `Map::$maps[] = $map`: no check for an entry of the same name. */
    method Add(m: Map)
      modifies this
      ensures maps == old(maps) + [m]
    {
      maps := maps + [m];
    }

    /** `Map::getByName`: the first entry, in list order, with that name; the list is only read. */
    method GetByName(name: string) returns (r: Option<Map>)
      ensures r == Find(maps, name)
      ensures r.Some? ==> r.value.GetName() == name
      ensures r.None? <==> forall j :: 0 <= j < |maps| ==> maps[j].name != name
    {
      var i := 0;
      while i < |maps|
        invariant 0 <= i <= |maps|
        invariant forall j :: 0 <= j < i ==> maps[j].name != name
      {
        if maps[i].GetName() == name {
          return Some(maps[i]);
        }
        i := i + 1;
      }
      return None;
    }
  }

  /**
   * Looking a name up after an append: whatever was found before is still
   * found; the new entry is reached only when no earlier entry has its name.
   */
  lemma {:induction false} FindAfterAdd(maps: seq<Map>, m: Map, name: string)
    ensures Find(maps + [m], name) ==
      if Find(maps, name).Some? then Find(maps, name)
      else if m.name == name then Some(m)
      else None
  {
    if |maps| > 0 {
      assert (maps + [m])[1..] == maps[1..] + [m];
      FindAfterAdd(maps[1..], m, name);
    }
  }

  /**
   * Re-adding a map under a name that is already catalogued does not replace
   * the earlier entry: `getByName` keeps returning it, and the catalog now
   * holds one more entry of that name.
   */
  lemma DuplicateIsShadowed(maps: seq<Map>, m: Map, i: nat)
    requires i < |maps| && maps[i].name == m.name
    ensures Find(maps + [m], m.name) == Find(maps, m.name)
    ensures Find(maps + [m], m.name).Some? && Find(maps + [m], m.name).value in maps
    ensures CountNamed(maps + [m], m.name) == CountNamed(maps, m.name) + 1 >= 2
  {
    FindAfterAdd(maps, m, m.name);
    CountNamedAfterAdd(maps, m, m.name);
    CountNamedPositive(maps, m.name, i);
  }

  /** An append adds exactly one to the count of the appended entry's name. */
  lemma {:induction false} CountNamedAfterAdd(maps: seq<Map>, m: Map, name: string)
    ensures CountNamed(maps + [m], name) == CountNamed(maps, name) + (if m.name == name then 1 else 0)
  {
    if |maps| > 0 {
      assert (maps + [m])[1..] == maps[1..] + [m];
      CountNamedAfterAdd(maps[1..], m, name);
    }
  }

  /** A name that occurs in the catalog is counted. */
  lemma {:induction false} CountNamedPositive(maps: seq<Map>, name: string, i: nat)
    requires i < |maps| && maps[i].name == name
    ensures CountNamed(maps, name) >= 1
  {
    if i > 0 {
      CountNamedPositive(maps[1..], name, i - 1);
    }
  }

  // ---------------------------------------------------------------------
  // World provisioning

  /** A world handle as the host's world manager returns it. */
  datatype World = World(folderName: string)

  /**
   * The host's world manager, as far as `generateWorld` sees it:
   * `loadWorld(n)` succeeds exactly for the names in `loadable`, and
   * `getWorldByName(n)` returns `loaded[n]`, or null when `n` is not a key.
   */
  datatype WorldManager = WorldManager(loadable: set<string>, loaded: map<string, World>)

  /**
   * One `generateWorld` call: the directory it creates, the archive it opens,
   * the name it loads, and its outcome: a world or null, or the error thrown
   * when the archive could not be opened.
   */
  datatype Provisioning = Provisioning(worldDir: string, archive: string, worldName: string, outcome: Result<Option<World>, Error>)

  /** A live world's name: `<map name>-<unique id>`. */
  function WorldName(mapName: string, uniqueId: string): (r: string)
    ensures |r| == |mapName| + 1 + |uniqueId|
    ensures r[..|mapName|] == mapName && r[|mapName|] == '-' && r[|mapName| + 1..] == uniqueId
  {
    mapName + "-" + uniqueId
  }

  /** The server's world directory for that name. */
  function WorldDir(serverDataPath: string, worldName: string): (r: string)
    ensures IsPrefix(serverDataPath + "worlds" + Sep, r)
    ensures r[|serverDataPath + "worlds" + Sep|..] == worldName + Sep
  {
    serverDataPath + "worlds" + Sep + worldName + Sep
  }

  /**
   * `generateWorld($uniqueId)`: the world directory is created and the
   * backup archive opened without checking the result. When the archive
   * cannot be opened, extracting from the unopened archive throws and no load
   * is attempted. Otherwise the same name is loaded: a refused load, or a
   * name the host then does not know, gives null.
   * `openable` holds the archive paths ZipArchive can open.
   */
  function GenerateWorld(m: Map, dataFolder: string, serverDataPath: string, uniqueId: string, openable: set<string>, wm: WorldManager): (p: Provisioning)
    ensures p.worldName == WorldName(m.GetName(), uniqueId)
    ensures p.worldDir == WorldDir(serverDataPath, p.worldName)
    ensures p.archive == m.GetZip(dataFolder)
    ensures p.outcome.Err? <==> p.archive !in openable
    ensures p.outcome.Err? ==> p.outcome.error == ArchiveNotOpened(p.archive)
    ensures p.archive in openable && p.worldName !in wm.loadable ==> p.outcome == Ok(None)
    ensures p.outcome.Ok? && p.outcome.value.Some? <==>
              p.archive in openable && p.worldName in wm.loadable && p.worldName in wm.loaded
    ensures p.outcome.Ok? && p.outcome.value.Some? ==> p.outcome.value.value == wm.loaded[p.worldName]
  {
    var worldName := WorldName(m.name, uniqueId);
    var archive := m.GetZip(dataFolder);
    var outcome :=
      if archive !in openable then Err(ArchiveNotOpened(archive))
      else if worldName in wm.loadable then
        (if worldName in wm.loaded then Ok(Some(wm.loaded[worldName])) else Ok(None))
      else Ok(None);
    Provisioning(WorldDir(serverDataPath, worldName), archive, worldName, outcome)
  }

  /** For one template, distinct unique ids give distinct world names and directories. */
  lemma WorldNameInjective(m: Map, dataFolder: string, serverDataPath: string, u1: string, u2: string, openable: set<string>, wm: WorldManager)
    requires u1 != u2
    ensures GenerateWorld(m, dataFolder, serverDataPath, u1, openable, wm).worldName != GenerateWorld(m, dataFolder, serverDataPath, u2, openable, wm).worldName
    ensures GenerateWorld(m, dataFolder, serverDataPath, u1, openable, wm).worldDir != GenerateWorld(m, dataFolder, serverDataPath, u2, openable, wm).worldDir
  {
    var pre := serverDataPath + "worlds" + Sep + m.name + "-";
    if WorldName(m.name, u1) == WorldName(m.name, u2) {
      CancelAffixes(m.name + "-", u1, u2, "");
    }
    if WorldDir(serverDataPath, WorldName(m.name, u1)) == WorldDir(serverDataPath, WorldName(m.name, u2)) {
      assert WorldDir(serverDataPath, WorldName(m.name, u1)) == pre + u1 + Sep;
      assert WorldDir(serverDataPath, WorldName(m.name, u2)) == pre + u2 + Sep;
      CancelAffixes(pre, u1, u2, Sep);
    }
  }

  /**
   * A load the host accepts can still give null: when `getWorldByName` does
   * not know the name afterwards.
   */
  lemma AcceptedLoadCanGiveNull(m: Map, dataFolder: string, serverDataPath: string, uniqueId: string)
    ensures var wm := WorldManager({WorldName(m.GetName(), uniqueId)}, map[]);
            GenerateWorld(m, dataFolder, serverDataPath, uniqueId, {m.GetZip(dataFolder)}, wm).outcome == Ok(None)
  {
  }

  /** Across templates the naming is not injective: "a-b" with id "c" and "a" with id "b-c" share a world. */
  lemma WorldNamesCollideAcrossMaps()
    ensures WorldName("a-b", "c") == WorldName("a", "b-c")
  {
  }
}
