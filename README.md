# Minerware persistence and map provisioning, modelled in Dafny

This project models the storage layer of the Minerware minigame plugin for
PocketMine-MP. It has three parts:

- the two record repositories, both named `DataManager`: the older
  `minerware` one (players and arenas) and the `LatamPMDevs` one (players and
  maps, start-up enumeration of the maps directory, clamped settings);
- the storage-format table both of them build from the Config library's
  table;
- the `Map` template class, with its process-wide catalog `Map::$maps` and the
  provisioning of a live world from a template's backup archive.

The filesystem is modelled as a value: `Records.Disk` maps each existing
record file to the document that `Config::getAll()` would decode from it. A
directory listing is a sequence of entry names, or `None` when `opendir`
fails. The host's world manager is an oracle: a set of names it agrees to
load, and a map from names to world handles. The configuration is an
int-valued map.

Modules, one per component:

- `PhpStrings`: `str_replace('.json', '', …)` and cancelling a fixed prefix and suffix.
- `Documents`: document values and `DataHolder`.
- `Layout`: the `database/<collection>/<key>.<ext>` layout.
- `Formats`: the NBT aliases.
- `Records`: `file_exists` plus `Config` reads and writes.
- `Arena`: `Map.php`.
- `MinerwareData`: `src/minerware/database/DataManager.php`. It is pure, so
  the repository is a datatype.
- `LatamData`: `src/LatamPMDevs/minerware/database/DataManager.php`. It is a
  class. `LoadMaps` is a loop method. `SaveMapData` appends to the catalog
  object.

Three behaviours of the code are worth stating because one might expect
otherwise:

- A catalog keyed by name, where the last registration wins, might be
  expected. The code only appends, with no check for duplicates, and a lookup
  returns the FIRST entry of that name. Re-saving a map does not replace its
  file either, because the Config class treats the saved document as default
  content. A field the file has keeps its value, unless the saved value there
  is an array: then a scalar in the file is replaced, and an array in the file
  is merged with it key by key. So after a re-save, `getByName` and every
  field whose saved value is not an array still show the old data
  (`LatamData.ResaveLeavesEarlierEntry`).
- `generateWorld` does not check whether the world directory exists or
  whether the archive opened. An archive that cannot be opened makes the
  extraction throw. Otherwise the result is null when the host refuses the
  load, or when it then does not know the world's name.
- An unknown player storage type is not rejected at start-up. It becomes an
  error only when an existing player file is read. The same holds for "nbt"
  and "namedtag": they map to 6, which is not a type Config can decode.

## Model

| member | source | states |
|---|---|---|
| `PhpStrings.StripJsonExt` | src/LatamPMDevs/minerware/database/DataManager.php:97 | removing the ".json" occurrences never lengthens the entry name |
| `PhpStrings.StripJsonExtIdentity` | src/LatamPMDevs/minerware/database/DataManager.php:97 | an entry with no ".json" in it is its own key |
| `PhpStrings.StripJsonExtSuffix` | src/LatamPMDevs/minerware/database/DataManager.php:97 | the entry `k.json` gives the key `k` whenever `k` holds no ".json" |
| `Documents.DataHolder.GetString` | src/minerware/arena/Map.php:50 | the "name" read succeeds exactly when the field is present and is a string, and yields that string; otherwise it is an error, never a coercion |
| `Layout.PlayerPathInjective` | src/LatamPMDevs/minerware/database/DataManager.php:84-85 | with data folder and storage type fixed, distinct player names give distinct path strings |
| `Layout.JsonRecordPathInjective` | src/LatamPMDevs/minerware/database/DataManager.php:125-126 | within a collection, distinct map or arena names give distinct JSON path strings |
| `Layout.BackupZipPathInjective` | src/minerware/arena/Map.php:61-63 | distinct map names give distinct backup archive path strings |
| `Layout.PlayerAndJsonRecordsDisjoint` | src/minerware/database/DataManager.php:69-80 | a player path string never equals a map or arena path string under the same data folder |
| `Layout.PlayerPath` | src/LatamPMDevs/minerware/database/DataManager.php:84-85 | a player file lies in `database/players/`, and the rest of the path is `<name>.<storage type>` |
| `Layout.JsonRecordPath` | src/LatamPMDevs/minerware/database/DataManager.php:125-126 | a map or arena file lies in `database/<collection>/`, and the rest of the path is `<name>.json` |
| `Layout.BackupZipPath` | src/minerware/arena/Map.php:62 | a backup archive lies in `database/backups/`, and the rest of the path is `<name>.zip` |
| `Formats.WithNbtAliases` | src/LatamPMDevs/minerware/database/DataManager.php:63-66 | the table has the library's keys plus "nbt" and "namedtag"; "nbt" is 6, "namedtag" equals "nbt", every other library entry is unchanged |
| `Records.Load` | src/LatamPMDevs/minerware/database/DataManager.php:127-131 | null exactly when the file does not exist, otherwise a holder over that file's document |
| `Records.LoadAs` | src/LatamPMDevs/minerware/database/DataManager.php:86-90 | null exactly when the file is absent; an error exactly when it exists and the storage type has no format number, or a number Config cannot decode; otherwise the file's document |
| `Records.Store` | src/LatamPMDevs/minerware/database/DataManager.php:137 | a new file gets the holder's document and reads back as the holder; an existing file becomes the holder's document filled into it as Config fills defaults; every other file is unchanged and no file disappears |
| `Records.FillDefaults` | src/LatamPMDevs/minerware/database/DataManager.php:137 | the result has the file's fields plus the defaults' fields; a field the file has keeps its value unless the default there is an array; a field both have is filled as `FillValue` says; a missing field comes from the defaults |
| `Records.FillValue` | src/LatamPMDevs/minerware/database/DataManager.php:137 | a scalar default never replaces a value; an array default replaces a scalar; two lists merge to the longer length, with shared indices filled recursively and every other index keeping the one list's element; two maps merge to the union of their keys, with shared keys filled recursively and every other key keeping the one map's value |
| `Records.FillSelf` | src/LatamPMDevs/minerware/database/DataManager.php:137 | filling a value with itself as the default gives it back unchanged |
| `Records.FillIdempotent` | src/LatamPMDevs/minerware/database/DataManager.php:137 | filling again with the same default changes nothing more |
| `Records.StoreCannotOverwrite` | src/LatamPMDevs/minerware/database/DataManager.php:137 | a save over an existing file keeps every field of the file whose saved value is not an array; when the file already has all the holder's fields and none of them is an array, the disk is unchanged |
| `Records.StoreIdempotent` | src/LatamPMDevs/minerware/database/DataManager.php:137 | saving the same holder twice leaves the disk as saving it once |
| `Records.ArrayReplacesScalar` | src/LatamPMDevs/minerware/database/DataManager.php:137 | a file with "spawn" as a string, saved with "spawn" as a map, ends with the map |
| `Records.ListsMergeByIndex` | src/LatamPMDevs/minerware/database/DataManager.php:137 | a file with spawns `[[1,2,3]]`, saved with `[[4,5,6],[7,8,9]]`, ends with `[[1,2,3],[7,8,9]]` |
| `Records.PlayerRef.Key` | src/LatamPMDevs/minerware/database/DataManager.php:84 | a connected player is filed under `getName()`, a string under itself |
| `Arena.NewMap` | src/minerware/arena/Map.php:48-59 | construction succeeds exactly when the holder has a string "name"; the map's name is that string and its data is the same holder |
| `Arena.Map.GetZip` | src/minerware/arena/Map.php:61-63 | the template's archive lies in the backups directory, and the rest of the path is the map's name followed by ".zip" |
| `Arena.FirstIndexNamed` | src/minerware/arena/Map.php:39-46 | the index returned is of an entry with that name and no earlier entry has it; none is returned only when no entry has it |
| `Arena.Find` | src/minerware/arena/Map.php:39-46 | a found map has the requested name, is in the catalog, and no earlier entry has that name; null exactly when no entry has that name |
| `Arena.MapCatalog.constructor` | src/minerware/arena/Map.php:37 | the catalog starts empty |
| `Arena.MapCatalog.Add` | src/LatamPMDevs/minerware/database/DataManager.php:138 | exactly one entry is appended at the end; earlier entries are unchanged |
| `Arena.MapCatalog.GetByName` | src/minerware/arena/Map.php:39-46 | the loop returns the first entry, in list order, with that name, or null when there is none; a result has `GetName() == name`; it has no modifies clause, so the catalog is left untouched |
| `Arena.FindAfterAdd` | src/minerware/arena/Map.php:39-46 | after an append, a name found before is still found with the same entry; the new entry is found only if no earlier entry has its name |
| `Arena.DuplicateIsShadowed` | src/minerware/arena/Map.php:39-46 | appending a map whose name is already present leaves `getByName` returning the earlier entry, and the catalog now holds at least two entries of that name |
| `Arena.CountNamedAfterAdd` | src/LatamPMDevs/minerware/database/DataManager.php:138 | an append raises the count of the appended entry's name by exactly one, so no deduplication takes place |
| `Arena.CountNamedPositive` | src/minerware/arena/Map.php:39-46 | a name present in the catalog is counted at least once |
| `Arena.GenerateWorld` | src/minerware/arena/Map.php:65-91 | the world directory and the loaded name are both `<name>-<uniqueId>`; the archive is the map's backup zip; an error exactly when that archive cannot be opened, before any load; a refused load gives null; a world exactly when the archive opens, the load succeeds and the host knows the name, and it is the host's world of that name |
| `Arena.WorldName` | src/minerware/arena/Map.php:87 | the name is the map's name, then "-", then the unique id, with nothing else |
| `Arena.WorldDir` | src/minerware/arena/Map.php:66 | the world directory lies in the server's `worlds/` directory, and the rest of the path is the world's name and a separator |
| `Arena.WorldNameInjective` | src/minerware/arena/Map.php:66 | for one template, distinct unique ids give distinct world names and distinct world directories |
| `Arena.AcceptedLoadCanGiveNull` | src/minerware/arena/Map.php:87-90 | a load the host accepts still gives null when the host then does not know the world's name |
| `Arena.WorldNamesCollideAcrossMaps` | src/minerware/arena/Map.php:87 | across templates the naming can collide: "a-b" with id "c" and "a" with id "b-c" |
| `MinerwareData.Create` | src/minerware/database/DataManager.php:44-59 | the format table is the library's plus "nbt" and "namedtag", both 6, with every other library entry kept |
| `MinerwareData.DataManager.GetPlayerData` | src/minerware/database/DataManager.php:68-76 | null exactly when the player's file is absent; an error exactly when it exists and the storage type has no format number, or a number Config cannot decode; otherwise that file's document |
| `MinerwareData.DataManager.GetArenaData` | src/minerware/database/DataManager.php:78-86 | null exactly when the arena's file is absent, otherwise that file's document |
| `MinerwareData.DataManager.SaveArenaData` | src/minerware/database/DataManager.php:88-92 | succeeds exactly when the holder has a string "name"; then only the arena file of that name changes: a new file holds the holder's document, and an existing file has the holder filled into it as Config fills defaults; it returns a disk and touches no catalog |
| `MinerwareData.PlayerOrNameAgree` | src/minerware/database/DataManager.php:69-70 | a connected player and the string of its name resolve to the same file and the same result |
| `MinerwareData.SaveThenGetArena` | src/minerware/database/DataManager.php:88-92 | when no arena file of that name existed, `getArenaData(name)` after `saveArenaData` returns the saved holder |
| `MinerwareData.ResaveArenaKeepsFields` | src/minerware/database/DataManager.php:88-92 | re-saving an existing arena: `getArenaData` then has the old fields plus the holder's missing ones; an old field keeps its value unless the holder's value there is an array, and a field both have is filled as `FillValue` says |
| `MinerwareData.ResaveArenaIdempotent` | src/minerware/database/DataManager.php:88-92 | saving the same arena twice gives the same disk as saving it once |
| `MinerwareData.NbtPlayerFilesUnreadable` | src/minerware/database/DataManager.php:49-51 | with storage type "nbt" or "namedtag", reading any existing player file fails with type 6, which Config cannot decode |
| `MinerwareData.SaveArenaKeepsOthers` | src/minerware/database/DataManager.php:79-80 | saving one arena leaves the record at every differently named arena's path as it was |
| `MinerwareData.RecordsInCreatedDirectories` | src/minerware/database/DataManager.php:56-58 | player and arena files lie inside the players and arenas directories that the constructor creates |
| `LatamData.AtLeast` | src/LatamPMDevs/minerware/database/DataManager.php:146 | `max(value, floor)` is at least both arguments and equals one of them |
| `LatamData.DataManager.constructor` | src/LatamPMDevs/minerware/database/DataManager.php:58-77 | the format table, built by two in-place assignments, is the NBT-aliased library table; the data folder and storage type are kept |
| `LatamData.DataManager.GetPlayerData` | src/LatamPMDevs/minerware/database/DataManager.php:83-91 | null exactly when the player's file is absent; an error exactly when it exists and the storage type has no format number, or a number Config cannot decode; otherwise that file's document |
| `LatamData.DataManager.GetMapData` | src/LatamPMDevs/minerware/database/DataManager.php:124-132 | null exactly when the map's file is absent, otherwise that file's document |
| `LatamData.DataManager.LookupOf` | src/LatamPMDevs/minerware/database/DataManager.php:97-98 | an entry is looked up under the key with ".json" removed; the result is null exactly when that key's map file is absent, and otherwise that file's document |
| `LatamData.DataManager.MapLookups` | src/LatamPMDevs/minerware/database/DataManager.php:95-99 | there are at most as many lookups as entries, and each one holds `getMapData` of its own key |
| `LatamData.DataManager.LoadMaps` | src/LatamPMDevs/minerware/database/DataManager.php:93-106 | returns false, with no lookups, exactly when the directory cannot be opened; otherwise returns true, and its loop makes the lookups `MapLookups` specifies |
| `LatamData.DataManager.SaveMapFile` | src/LatamPMDevs/minerware/database/DataManager.php:134-137 | succeeds exactly when the holder has a string "name"; then only that map's file changes: a new file holds the holder's document, and an existing file has the holder filled into it as Config fills defaults |
| `LatamData.DataManager.SaveMapData` | src/LatamPMDevs/minerware/database/DataManager.php:134-139 | writes the file as `SaveMapFile` does, and on success appends exactly one `Map` for the holder to the catalog; on error the catalog is unchanged |
| `LatamData.DataManager.MaxRuntimeArenas` | src/LatamPMDevs/minerware/database/DataManager.php:145-147 | at least 1; equal to the configured value (default 15) whenever that value is at least 1 |
| `LatamData.DataManager.ArenaStartingTime` | src/LatamPMDevs/minerware/database/DataManager.php:149-151 | at least 5; equal to the configured value (default 120) whenever that value is at least 5 |
| `LatamData.DataManager.MinimumStartingPlayers` | src/LatamPMDevs/minerware/database/DataManager.php:153-155 | at least 2; equal to the configured value (default 4) whenever that value is at least 2 |
| `LatamData.PlayerOrNameAgree` | src/LatamPMDevs/minerware/database/DataManager.php:84-85 | a connected player and the string of its name resolve to the same file and the same result |
| `LatamData.VisibleEntriesMembers` | src/LatamPMDevs/minerware/database/DataManager.php:95-96 | an entry is acted on exactly when it is listed and is neither "." nor ".." |
| `LatamData.MapLookupsFollowVisibleEntries` | src/LatamPMDevs/minerware/database/DataManager.php:95-99 | there is one lookup per visible entry, in listing order, under the key with ".json" removed and with that key's `getMapData` result |
| `LatamData.JsonEntryLoadsItself` | src/LatamPMDevs/minerware/database/DataManager.php:97-98 | a listed `k.json`, with no ".json" inside `k`, is looked up under `k`, and the file read is that same listed file |
| `LatamData.EntryKeysCollide` | src/LatamPMDevs/minerware/database/DataManager.php:97 | "a.json" and "a.json.json" both become the key "a" |
| `LatamData.SaveThenGetMap` | src/LatamPMDevs/minerware/database/DataManager.php:134-137 | when no map file of that name existed, `getMapData(name)` after the save returns the saved holder |
| `LatamData.SaveMapKeepsOthers` | src/LatamPMDevs/minerware/database/DataManager.php:135-136 | saving one map leaves the file at every differently named map's path as it was |
| `LatamData.ResaveLeavesEarlierEntry` | src/LatamPMDevs/minerware/database/DataManager.php:134-139 | re-saving a catalogued name leaves `getByName` returning the earlier entry; every field the existing file has keeps its value unless the holder's value there is an array, and a field both have is filled as `FillValue` says |
| `LatamData.RecordsInCreatedDirectories` | src/LatamPMDevs/minerware/database/DataManager.php:70-73 | player files, map files and backup archives lie inside the players, maps and backups directories that the constructor creates |

## Left out

- PhpStrings.StripJsonExt: its own contract only bounds the length. What it computes is stated by `StripJsonExtIdentity`, `StripJsonExtSuffix` and `EntryKeysCollide`.
- Records.Store: the Config class's source is not part of this model. Its default filling is modelled recursively by `Records.FillValue`, but documents hold no null, so a null field, which Config would treat as missing, is not modelled. Key order inside a merged array is not modelled.
- Records.FillValue: where the file has a list and the default has a string-keyed map, or the reverse, Config merges their keys into one mixed PHP array. The model keeps the file's value there instead.
- Paths are compared as strings. A map or arena name holding the separator, or "." and ".." segments, can reach another file on a real filesystem (for example, the map name `../players/bob` under storage type "json" reaches bob's player file). The lemmas about distinct or untouched files (`Layout.PlayerPathInjective`, `Layout.JsonRecordPathInjective`, `Layout.BackupZipPathInjective`, `Layout.PlayerAndJsonRecordsDisjoint`, `MinerwareData.SaveArenaKeepsOthers`, `LatamData.SaveMapKeepsOthers`) are about path strings, not about the files those paths resolve to.
- Records.LoadAs: the set of type numbers Config can decode, {0, 1, 2, 4, 5}, is taken from the library, which is not part of this model.
- LatamData.DataManager.LoadMaps: it assumes every `new Map(...)` returns, including for a null lookup. If that constructor throws, the loop stops with an exception and `true` is not returned. The `return false` branch also follows the PHP text: `opendir` is called without `@`, and a host error handler that turns its warning into an exception would throw instead. That handler is not part of this model.
- Encodings: the Config library's JSON, NBT, YAML and INI encoders and decoders are foreign code. A saved document is assumed to decode back to itself, and corrupt files are not modelled.
- The library's own `Config::$formats` table: it is a parameter, because its source is not part of this model.
- The filesystem is reduced to the record files and their documents. `file_exists` on a directory, the best-effort `@mkdir` calls (modelled only as the list in `CreatedDirectories`) and write failures are not modelled.
- Configuration reads: `storage-format.player-data` arrives as a string parameter, so a missing key is not modelled. The clamp settings arrive already cast to int, so PHP's `(int)` cast of non-integer values is not modelled.
- `DataHolder` is not part of this model. Its `getString` behaviour is assumed: a missing or non-string field is an error rather than a default value. Its other accessors and setters are left out.
- The `LatamPMDevs` `Map` class is not part of this model. `LoadMaps` therefore returns the `getMapData` results it would pass to `new Map`, including nulls, and does not register anything. `SaveMapData` appends an `Arena.Map`.
- Map object identity: catalog entries are values, so two maps built from equal holders are indistinguishable.
- `generateWorld`'s `@mkdir`, `ZipArchive` open/extract/close, and the host's `loadWorld`/`getWorldByName`: these are foreign calls. The model records which directory and archive are used, and it takes the host as an oracle. The archive either opens or not: partial extraction and corrupt entries are not modelled. The commented-out NBT editing block is dead code.
- `DIRECTORY_SEPARATOR` is fixed to "/". A Windows host is not modelled, and none of the proofs depend on the separator's value.
- `loadLanguages`, `getServerIp`, `saveResource` and the singleton wiring are configuration glue with no logic to state.
- Concurrency and locking: the plugin runs on the server's single main thread.
