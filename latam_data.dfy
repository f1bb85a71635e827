/**
 * The record repository of src/LatamPMDevs/minerware/database/DataManager.php:
 * players and maps, the start-up enumeration of the maps directory, the save
 * path that publishes into the map catalog, and the clamped settings.
 */
module LatamData {
  import opened Wrappers
  import opened Documents
  import opened PhpStrings
  import opened Layout
  import opened Formats
  import opened Records
  import opened Arena

  /** One `getMapData($map)` call made while enumerating: the key, and what it returned. */
  datatype MapLookup = MapLookup(key: string, data: Option<DataHolder>)

  /** The directory entries that `loadMaps` acts on: all but "." and "..". */
  predicate IsVisibleEntry(entry: string)
  {
    entry != "." && entry != ".."
  }

  /** The entries `loadMaps` acts on, in the order `readdir` lists them. */
  function VisibleEntries(entries: seq<string>): seq<string>
    decreases |entries|
  {
    if |entries| == 0 then []
    else
      var last := entries[|entries| - 1];
      VisibleEntries(entries[..|entries| - 1]) + (if IsVisibleEntry(last) then [last] else [])
  }

  /** `(int) $config->get($key, $default)`, with the configuration already read as integers. */
  function ConfigInt(config: map<string, int>, key: string, default: int): int
  {
    if key in config then config[key] else default
  }

  /** `max($value, $floor)`. */
  function AtLeast(value: int, floor: int): (r: int)
    ensures r >= floor && r >= value
    ensures r == value || r == floor
  {
    if value >= floor then value else floor
  }

  class DataManager {
    const pluginPath: string
    const playerStorageType: string
    const formats: map<string, int>

    /**
     * The constructor: copies the library's format table, sets "nbt" and then
     * "namedtag" in the copy, and keeps the configured player storage type.
     * The best-effort `mkdir` calls are described by CreatedDirectories.
     */
    constructor (dataFolder: string, playerStorageType: string, libraryFormats: map<string, int>)
      ensures pluginPath == dataFolder && this.playerStorageType == playerStorageType
      ensures formats == WithNbtAliases(libraryFormats)
    {
      pluginPath := dataFolder;
      var f := libraryFormats;
      f := f["nbt" := NbtFormat];
      f := f["namedtag" := f["nbt"]];
      formats := f;
      this.playerStorageType := playerStorageType;
    }

    function PlayersDir(): string
    {
      CollectionDir(pluginPath, "players")
    }

    function MapsDir(): string
    {
      CollectionDir(pluginPath, "maps")
    }

    function BackupsDir(): string
    {
      CollectionDir(pluginPath, "backups")
    }

    /** The directories the constructor creates: database, players, maps and backups. */
    function CreatedDirectories(): seq<string>
    {
      [DatabaseDir(pluginPath), PlayersDir(), MapsDir(), BackupsDir()]
    }

    function PlayerFile(who: PlayerRef): string
    {
      PlayerPath(pluginPath, who.Key(), playerStorageType)
    }

    function MapFile(mapName: string): string
    {
      JsonRecordPath(pluginPath, "maps", mapName)
    }

    /**
     * `getPlayerData`: null exactly when the player's file is absent; an
     * existing file under a storage type without a decodable Config type is
     * an error.
     */
    function GetPlayerData(disk: Disk, who: PlayerRef): (r: Result<Option<DataHolder>, Error>)
      ensures r == Ok(None) <==> PlayerFile(who) !in disk
      ensures r.Err? <==> PlayerFile(who) in disk && (playerStorageType !in formats || formats[playerStorageType] !in ConfigTypes)
      ensures r.Ok? && r.value.Some? ==> r.value.value.GetAll() == disk[PlayerFile(who)]
    {
      LoadAs(disk, PlayerFile(who), formats, playerStorageType)
    }

    /** `getMapData`: null exactly when the map's file is absent. */
    function GetMapData(disk: Disk, mapName: string): (r: Option<DataHolder>)
      ensures r.None? <==> MapFile(mapName) !in disk
      ensures r.Some? ==> r.value.GetAll() == disk[MapFile(mapName)]
    {
      Load(disk, MapFile(mapName))
    }

    /** The lookup `loadMaps` makes for one entry: the key is the entry with every ".json" removed. */
    function LookupOf(disk: Disk, entry: string): (r: MapLookup)
      ensures r.key == StripJsonExt(entry)
      ensures r.data.None? <==> MapFile(r.key) !in disk
      ensures r.data.Some? ==> r.data.value.GetAll() == disk[MapFile(r.key)]
    {
      var key := StripJsonExt(entry);
      MapLookup(key, GetMapData(disk, key))
    }

    /** The lookups `loadMaps` makes over a listing, in listing order. */
    function MapLookups(disk: Disk, entries: seq<string>): (r: seq<MapLookup>)
      ensures |r| <= |entries|
      ensures forall j :: 0 <= j < |r| ==> r[j].data == GetMapData(disk, r[j].key)
      decreases |entries|
    {
      if |entries| == 0 then []
      else
        var last := entries[|entries| - 1];
        MapLookups(disk, entries[..|entries| - 1]) + (if IsVisibleEntry(last) then [LookupOf(disk, last)] else [])
    }

    /**
     * `loadMaps`: `listing` is what `opendir`/`readdir` give (None when the
     * directory cannot be opened). Each visited entry's document is handed to
     * `new Map`, so the method returns those lookups in order.
     */
    method LoadMaps(disk: Disk, listing: Option<seq<string>>) returns (ok: bool, lookups: seq<MapLookup>)
      ensures ok <==> listing.Some?
      ensures ok ==> lookups == MapLookups(disk, listing.value)
      ensures !ok ==> lookups == []
    {
      if listing.None? {
        return false, [];
      }
      var entries := listing.value;
      lookups := [];
      var i := 0;
      while i < |entries|
        invariant 0 <= i <= |entries|
        invariant lookups == MapLookups(disk, entries[..i])
      {
        var entry := entries[i];
        if entry != "." && entry != ".." {
          var key := StripJsonExt(entry);
          lookups := lookups + [MapLookup(key, GetMapData(disk, key))];
        }
        assert entries[..i + 1][..i] == entries[..i];
        i := i + 1;
      }
      assert entries[..i] == entries;
      return true, lookups;
    }

    /**
     * The file half of `saveMapData`: saves through Config under the map path
     * of the holder's "name". A new file gets the holder's document; an
     * existing one has the holder filled into it as `FillDefaults` says:
     * missing fields are added, and a field whose saved value is an array
     * replaces or merges with the file's value.
     */
    function SaveMapFile(disk: Disk, holder: DataHolder): (r: Result<Disk, Error>)
      ensures r.Ok? <==> holder.GetString("name").Ok?
      ensures r.Ok? ==> r.value.Keys == disk.Keys + {MapFile(holder.GetString("name").value)}
      ensures r.Ok? && MapFile(holder.GetString("name").value) !in disk ==>
                r.value[MapFile(holder.GetString("name").value)] == holder.GetAll()
      ensures r.Ok? && MapFile(holder.GetString("name").value) in disk ==>
                r.value[MapFile(holder.GetString("name").value)] ==
                FillDefaults(holder.GetAll(), disk[MapFile(holder.GetString("name").value)])
      ensures r.Ok? ==> forall p :: p in disk && p != MapFile(holder.GetString("name").value) ==> r.value[p] == disk[p]
      ensures r.Err? ==> r.error == holder.GetString("name").error
    {
      match holder.GetString("name")
      case Ok(name) => Ok(Store(disk, MapFile(name), holder))
      case Err(e) => Err(e)
    }

    /**
     * `saveMapData`: writes the file, then appends one new Map for the
     * holder to the catalog, with no check for an entry of the same name.
     */
    method SaveMapData(disk: Disk, holder: DataHolder, catalog: MapCatalog) returns (r: Result<Disk, Error>)
      modifies catalog
      ensures r == SaveMapFile(disk, holder)
      ensures r.Ok? ==> catalog.maps == old(catalog.maps) + [Map(holder, holder.GetString("name").value)]
      ensures r.Err? ==> catalog.maps == old(catalog.maps)
    {
      var name := holder.GetString("name");
      if name.Err? {
        return Err(name.error);
      }
      r := Ok(Store(disk, MapFile(name.value), holder));
      var m := NewMap(holder);
      catalog.Add(m.value);
    }

    /** `getMaxRuntimeArenas`: the configured value (default 15), never below 1. */
    function MaxRuntimeArenas(config: map<string, int>): (r: int)
      ensures r >= 1
      ensures ConfigInt(config, "max-runtime-arenas", 15) >= 1 ==> r == ConfigInt(config, "max-runtime-arenas", 15)
      ensures ConfigInt(config, "max-runtime-arenas", 15) < 1 ==> r == 1
    {
      AtLeast(ConfigInt(config, "max-runtime-arenas", 15), 1)
    }

    /** `getArenaStartingTime`: the configured value (default 120), never below 5. */
    function ArenaStartingTime(config: map<string, int>): (r: int)
      ensures r >= 5
      ensures ConfigInt(config, "arena-starting-time", 120) >= 5 ==> r == ConfigInt(config, "arena-starting-time", 120)
      ensures ConfigInt(config, "arena-starting-time", 120) < 5 ==> r == 5
    {
      AtLeast(ConfigInt(config, "arena-starting-time", 120), 5)
    }

    /** `getMinimumStartingPlayers`: the configured value (default 4), never below 2. */
    function MinimumStartingPlayers(config: map<string, int>): (r: int)
      ensures r >= 2
      ensures ConfigInt(config, "minimum-starting-players", 4) >= 2 ==> r == ConfigInt(config, "minimum-starting-players", 4)
      ensures ConfigInt(config, "minimum-starting-players", 4) < 2 ==> r == 2
    {
      AtLeast(ConfigInt(config, "minimum-starting-players", 4), 2)
    }
  }

  /** Passing a connected player or the string of its name reads the same file, with the same outcome. */
  lemma PlayerOrNameAgree(dm: DataManager, disk: Disk, p: Player)
    ensures dm.PlayerFile(Online(p)) == dm.PlayerFile(ByName(p.GetName()))
    ensures dm.GetPlayerData(disk, Online(p)) == dm.GetPlayerData(disk, ByName(p.GetName()))
  {
  }

  /** An entry is acted on exactly when it is listed and is not "." or "..". */
  lemma {:induction false} VisibleEntriesMembers(entries: seq<string>, e: string)
    ensures e in VisibleEntries(entries) <==> e in entries && IsVisibleEntry(e)
  {
    if |entries| > 0 {
      var init := entries[..|entries| - 1];
      VisibleEntriesMembers(init, e);
      assert entries == init + [entries[|entries| - 1]];
    }
  }

  /** `loadMaps` makes one lookup per visible entry, in listing order. */
  lemma {:induction false} MapLookupsFollowVisibleEntries(dm: DataManager, disk: Disk, entries: seq<string>)
    ensures |dm.MapLookups(disk, entries)| == |VisibleEntries(entries)|
    ensures forall j :: 0 <= j < |VisibleEntries(entries)| ==>
      dm.MapLookups(disk, entries)[j] == dm.LookupOf(disk, VisibleEntries(entries)[j])
  {
    if |entries| > 0 {
      MapLookupsFollowVisibleEntries(dm, disk, entries[..|entries| - 1]);
    }
  }

  /**
   * The entry `k.json`, with no ".json" inside `k`, is looked up under the
   * key `k`, and that key's map path is the very file that was listed.
   */
  lemma JsonEntryLoadsItself(dm: DataManager, disk: Disk, entries: seq<string>, k: string)
    requires k + JsonExt in entries && !ContainsJsonExt(k)
    ensures dm.MapFile(k) == CollectionDir(dm.pluginPath, "maps") + (k + JsonExt)
    ensures exists j ::
              && 0 <= j < |dm.MapLookups(disk, entries)|
              && dm.MapLookups(disk, entries)[j] == MapLookup(k, Load(disk, CollectionDir(dm.pluginPath, "maps") + (k + JsonExt)))
  {
    var entry := k + JsonExt;
    StripJsonExtSuffix(k);
    VisibleEntriesMembers(entries, entry);
    MapLookupsFollowVisibleEntries(dm, disk, entries);
    var j :| 0 <= j < |VisibleEntries(entries)| && VisibleEntries(entries)[j] == entry;
    assert dm.MapLookups(disk, entries)[j] == dm.LookupOf(disk, entry);
  }

  /** "a.json" and "a.json.json" both become the key "a": two entries, one map file read twice. */
  lemma EntryKeysCollide()
    ensures StripJsonExt("a.json") == "a"
    ensures StripJsonExt("a.json.json") == "a"
  {
  }

  /** A newly saved map reads back by its name as the very document saved. */
  lemma SaveThenGetMap(dm: DataManager, disk: Disk, holder: DataHolder)
    requires dm.SaveMapFile(disk, holder).Ok?
    requires dm.MapFile(holder.GetString("name").value) !in disk
    ensures dm.GetMapData(dm.SaveMapFile(disk, holder).value, holder.GetString("name").value) == Some(holder)
  {
  }

  /** Saving one map leaves every other map's file as it was. */
  lemma SaveMapKeepsOthers(dm: DataManager, disk: Disk, holder: DataHolder, other: string)
    requires dm.SaveMapFile(disk, holder).Ok? && other != holder.GetString("name").value
    ensures dm.GetMapData(dm.SaveMapFile(disk, holder).value, other) == dm.GetMapData(disk, other)
  {
    var name := holder.GetString("name").value;
    if dm.MapFile(other) == dm.MapFile(name) {
      JsonRecordPathInjective(dm.pluginPath, "maps", other, name);
    }
  }

  /**
   * Re-saving a map whose name is already catalogued changes neither what
   * `getByName` returns, which is still the earlier catalog entry, nor any
   * field the map's file already has, unless the holder's value there is an
   * array, which is filled in as `FillValue` says.
   */
  lemma ResaveLeavesEarlierEntry(dm: DataManager, disk: Disk, holder: DataHolder, maps: seq<Map>, i: nat)
    requires dm.SaveMapFile(disk, holder).Ok?
    requires i < |maps| && maps[i].GetName() == holder.GetString("name").value
    ensures var name := holder.GetString("name").value;
      && Find(maps + [Map(holder, name)], name) == Find(maps, name)
      && Find(maps, name).Some?
    ensures var file := dm.MapFile(holder.GetString("name").value);
      file in disk ==> forall k :: k in disk[file] && (k !in holder.GetAll() || !holder.GetAll()[k].IsArray()) ==>
                         dm.SaveMapFile(disk, holder).value[file][k] == disk[file][k]
    ensures var file := dm.MapFile(holder.GetString("name").value);
      file in disk ==> forall k :: k in disk[file] && k in holder.GetAll() ==>
                         dm.SaveMapFile(disk, holder).value[file][k] == FillValue(holder.GetAll()[k], disk[file][k])
  {
    DuplicateIsShadowed(maps, Map(holder, holder.GetString("name").value), i);
  }

  /** Player, map and backup files all lie inside the directories the constructor creates. */
  lemma RecordsInCreatedDirectories(dm: DataManager, who: PlayerRef, mapName: string, m: Map)
    ensures dm.PlayersDir() in dm.CreatedDirectories() && IsPrefix(dm.PlayersDir(), dm.PlayerFile(who))
    ensures dm.MapsDir() in dm.CreatedDirectories() && IsPrefix(dm.MapsDir(), dm.MapFile(mapName))
    ensures dm.BackupsDir() in dm.CreatedDirectories() && IsPrefix(dm.BackupsDir(), m.GetZip(dm.pluginPath))
  {
  }
}
