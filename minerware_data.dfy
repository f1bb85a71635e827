/**
 * The record repository of src/minerware/database/DataManager.php. Its fields
 * are fixed by the constructor, so the repository is a value; the disk it
 * reads and writes is passed in and handed back.
 */
module MinerwareData {
  import opened Wrappers
  import opened Documents
  import opened PhpStrings
  import opened Layout
  import opened Formats
  import opened Records

  datatype DataManager = DataManager(pluginPath: string, playerStorageType: string, formats: map<string, int>) {

    function PlayersDir(): string
    {
      CollectionDir(pluginPath, "players")
    }

    function ArenasDir(): string
    {
      CollectionDir(pluginPath, "arenas")
    }

    /** The directories the constructor creates, best effort: database, players and arenas. */
    function CreatedDirectories(): seq<string>
    {
      [DatabaseDir(pluginPath), PlayersDir(), ArenasDir()]
    }

    function PlayerFile(who: PlayerRef): string
    {
      PlayerPath(pluginPath, who.Key(), playerStorageType)
    }

    function ArenaFile(arena: string): string
    {
      JsonRecordPath(pluginPath, "arenas", arena)
    }

    /**
     * `getPlayerData`: null exactly when the player's file is absent; an
     * existing file under a storage type without a decodable Config type is
     * an error.
     */
    function GetPlayerData(disk: Disk, who: PlayerRef): (r: Result<Option<DataHolder>, Error>)
      ensures r == Ok(None) <==> PlayerFile(who) !in disk
      ensures r.Err? <==> PlayerFile(who) in disk && (playerStorageType !in formats || formats[playerStorageType] !in ConfigTypes)
      ensures r.Ok? && r.value.Some? ==> r.value.value.GetAll() == disk[PlayerFile(who)]
    {
      LoadAs(disk, PlayerFile(who), formats, playerStorageType)
    }

    /** `getArenaData`: null exactly when the arena's file is absent. */
    function GetArenaData(disk: Disk, arena: string): (r: Option<DataHolder>)
      ensures r.None? <==> ArenaFile(arena) !in disk
      ensures r.Some? ==> r.value.GetAll() == disk[ArenaFile(arena)]
    {
      Load(disk, ArenaFile(arena))
    }

    /**
     * `saveArenaData`: saves through Config under the arena path of the
     * holder's "name" field and touches no other file. A new file gets the
     * holder's document; an existing one has the holder filled into it as
     * `FillDefaults` says: missing fields are added, and a field whose saved
     * value is an array replaces or merges with the file's value. A holder
     * without a string name fails before anything is written.
     */
    function SaveArenaData(disk: Disk, holder: DataHolder): (r: Result<Disk, Error>)
      ensures r.Ok? <==> holder.GetString("name").Ok?
      ensures r.Ok? ==> r.value.Keys == disk.Keys + {ArenaFile(holder.GetString("name").value)}
      ensures r.Ok? && ArenaFile(holder.GetString("name").value) !in disk ==>
                r.value[ArenaFile(holder.GetString("name").value)] == holder.GetAll()
      ensures r.Ok? && ArenaFile(holder.GetString("name").value) in disk ==>
                r.value[ArenaFile(holder.GetString("name").value)] ==
                FillDefaults(holder.GetAll(), disk[ArenaFile(holder.GetString("name").value)])
      ensures r.Ok? ==> forall p :: p in disk && p != ArenaFile(holder.GetString("name").value) ==> r.value[p] == disk[p]
      ensures r.Err? ==> r.error == holder.GetString("name").error
    {
      match holder.GetString("name")
      case Ok(name) => Ok(Store(disk, ArenaFile(name), holder))
      case Err(e) => Err(e)
    }
  }

  /** The constructor: the NBT aliases are added to the library's format table. */
  function Create(dataFolder: string, playerStorageType: string, libraryFormats: map<string, int>): (dm: DataManager)
    ensures dm.pluginPath == dataFolder && dm.playerStorageType == playerStorageType
    ensures dm.formats.Keys == libraryFormats.Keys + {"nbt", "namedtag"}
    ensures dm.formats["nbt"] == NbtFormat && dm.formats["namedtag"] == NbtFormat
    ensures forall k :: k in libraryFormats && k != "nbt" && k != "namedtag" ==> dm.formats[k] == libraryFormats[k]
  {
    DataManager(dataFolder, playerStorageType, WithNbtAliases(libraryFormats))
  }

  /** Passing a connected player or the string of its name reads the same file, with the same outcome. */
  lemma PlayerOrNameAgree(dm: DataManager, disk: Disk, p: Player)
    ensures dm.PlayerFile(Online(p)) == dm.PlayerFile(ByName(p.GetName()))
    ensures dm.GetPlayerData(disk, Online(p)) == dm.GetPlayerData(disk, ByName(p.GetName()))
  {
  }

  /** A newly saved arena reads back by its name as the very document saved. */
  lemma SaveThenGetArena(dm: DataManager, disk: Disk, holder: DataHolder)
    requires dm.SaveArenaData(disk, holder).Ok?
    requires dm.ArenaFile(holder.GetString("name").value) !in disk
    ensures dm.GetArenaData(dm.SaveArenaData(disk, holder).value, holder.GetString("name").value) == Some(holder)
  {
  }

  /**
   * Re-saving an existing arena cannot change a field its file already has
   * unless the holder's value there is an array, which is filled in as
   * `FillValue` says; missing fields are added from the holder.
   */
  lemma ResaveArenaKeepsFields(dm: DataManager, disk: Disk, holder: DataHolder)
    requires dm.SaveArenaData(disk, holder).Ok?
    requires dm.ArenaFile(holder.GetString("name").value) in disk
    ensures var before := dm.GetArenaData(disk, holder.GetString("name").value).value.GetAll();
            var after := dm.GetArenaData(dm.SaveArenaData(disk, holder).value, holder.GetString("name").value).value.GetAll();
            var saved := holder.GetAll();
            && after.Keys == before.Keys + saved.Keys
            && (forall k :: k in before && (k !in saved || !saved[k].IsArray()) ==> after[k] == before[k])
            && (forall k :: k in before && k in saved ==> after[k] == FillValue(saved[k], before[k]))
            && (forall k :: k in saved && k !in before ==> after[k] == saved[k])
  {
  }

  /** Saving the same arena twice leaves the disk as saving it once. */
  lemma ResaveArenaIdempotent(dm: DataManager, disk: Disk, holder: DataHolder)
    requires dm.SaveArenaData(disk, holder).Ok?
    ensures dm.SaveArenaData(dm.SaveArenaData(disk, holder).value, holder) == dm.SaveArenaData(disk, holder)
  {
    StoreIdempotent(disk, dm.ArenaFile(holder.GetString("name").value), holder);
  }

  /**
   * With the NBT aliases in the table, a player file stored under "nbt" or
   * "namedtag" cannot be read: 6 is not a type Config can decode.
   */
  lemma NbtPlayerFilesUnreadable(dataFolder: string, storageType: string, library: map<string, int>, disk: Disk, who: PlayerRef)
    requires storageType == "nbt" || storageType == "namedtag"
    requires Create(dataFolder, storageType, library).PlayerFile(who) in disk
    ensures Create(dataFolder, storageType, library).GetPlayerData(disk, who) == Err(UnsupportedType(NbtFormat))
  {
  }

  /** Saving one arena leaves every other arena's record as it was. */
  lemma SaveArenaKeepsOthers(dm: DataManager, disk: Disk, holder: DataHolder, other: string)
    requires dm.SaveArenaData(disk, holder).Ok? && other != holder.GetString("name").value
    ensures dm.GetArenaData(dm.SaveArenaData(disk, holder).value, other) == dm.GetArenaData(disk, other)
  {
    var name := holder.GetString("name").value;
    if dm.ArenaFile(other) == dm.ArenaFile(name) {
      JsonRecordPathInjective(dm.pluginPath, "arenas", other, name);
    }
  }

  /** Every player and arena record lies inside a directory the constructor creates. */
  lemma RecordsInCreatedDirectories(dm: DataManager, who: PlayerRef, arena: string)
    ensures dm.PlayersDir() in dm.CreatedDirectories() && IsPrefix(dm.PlayersDir(), dm.PlayerFile(who))
    ensures dm.ArenasDir() in dm.CreatedDirectories() && IsPrefix(dm.ArenasDir(), dm.ArenaFile(arena))
  {
  }
}
