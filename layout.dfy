/**
 * The fixed on-disk layout under a plugin data folder:
 * `database/players/<name>.<storageType>`, `database/{maps|arenas}/<name>.json`
 * and `database/backups/<name>.zip`.
 */
module Layout {
  import opened PhpStrings

  /** PHP's DIRECTORY_SEPARATOR on the hosts the plugin runs on. */
  const Sep: string := "/"

  function DatabaseDir(root: string): string
  {
    root + "database" + Sep
  }

  /** The directory of one collection ("players", "maps", "arenas", "backups"). */
  function CollectionDir(root: string, collection: string): string
  {
    DatabaseDir(root) + collection + Sep
  }

  /** A player's record: the player's name with the configured storage type as extension. */
  function PlayerPath(root: string, name: string, storageType: string): (p: string)
    ensures IsPrefix(CollectionDir(root, "players"), p)
    ensures p[|CollectionDir(root, "players")|..] == name + "." + storageType
  {
    CollectionDir(root, "players") + name + "." + storageType
  }

  /** A JSON record of a collection ("maps" or "arenas"). */
  function JsonRecordPath(root: string, collection: string, key: string): (p: string)
    ensures IsPrefix(CollectionDir(root, collection), p)
    ensures p[|CollectionDir(root, collection)|..] == key + JsonExt
  {
    CollectionDir(root, collection) + key + JsonExt
  }

  /** The backup archive of a map template. */
  function BackupZipPath(root: string, name: string): (p: string)
    ensures IsPrefix(CollectionDir(root, "backups"), p)
    ensures p[|CollectionDir(root, "backups")|..] == name + ".zip"
  {
    CollectionDir(root, "backups") + name + ".zip"
  }

  /** Under one data folder and storage type, distinct player names never share a file. */
  lemma PlayerPathInjective(root: string, a: string, b: string, storageType: string)
    requires PlayerPath(root, a, storageType) == PlayerPath(root, b, storageType)
    ensures a == b
  {
    var dir := CollectionDir(root, "players");
    assert dir + a + "." + storageType == dir + a + ("." + storageType);
    assert dir + b + "." + storageType == dir + b + ("." + storageType);
    CancelAffixes(dir, a, b, "." + storageType);
  }

  /** Within one collection, distinct keys never share a JSON record. */
  lemma JsonRecordPathInjective(root: string, collection: string, a: string, b: string)
    requires JsonRecordPath(root, collection, a) == JsonRecordPath(root, collection, b)
    ensures a == b
  {
    CancelAffixes(CollectionDir(root, collection), a, b, JsonExt);
  }

  /** Distinct map names never share a backup archive. */
  lemma BackupZipPathInjective(root: string, a: string, b: string)
    requires BackupZipPath(root, a) == BackupZipPath(root, b)
    ensures a == b
  {
    CancelAffixes(CollectionDir(root, "backups"), a, b, ".zip");
  }

  /**
   * Two collections whose names start with different letters never share a
   * path, whatever follows their directory.
   */
  lemma CollectionsDisjoint(root: string, c1: string, c2: string, rest1: string, rest2: string)
    requires |c1| > 0 && |c2| > 0 && c1[0] != c2[0]
    ensures CollectionDir(root, c1) + rest1 != CollectionDir(root, c2) + rest2
  {
    var db := DatabaseDir(root);
    var p1 := CollectionDir(root, c1) + rest1;
    var p2 := CollectionDir(root, c2) + rest2;
    assert p1 == db + (c1 + Sep + rest1);
    assert p2 == db + (c2 + Sep + rest2);
    assert p1[|db|] == c1[0];
    assert p2[|db|] == c2[0];
  }

  /** A player record and a map or arena record never collide. */
  lemma PlayerAndJsonRecordsDisjoint(root: string, name: string, storageType: string, collection: string, key: string)
    requires collection == "maps" || collection == "arenas"
    ensures PlayerPath(root, name, storageType) != JsonRecordPath(root, collection, key)
  {
    assert PlayerPath(root, name, storageType) == CollectionDir(root, "players") + (name + "." + storageType);
    assert JsonRecordPath(root, collection, key) == CollectionDir(root, collection) + (key + JsonExt);
    CollectionsDisjoint(root, "players", collection, name + "." + storageType, key + JsonExt);
  }
}
