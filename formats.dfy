/** The storage-format table: the Config library's table plus the NBT aliases. */
module Formats {

  /** The numeric identifier the plugin gives the binary NBT encoding. */
  const NbtFormat: int := 6

  /**
   * The library's `Config::$formats` with "nbt" set to 6 and "namedtag" set to
   * whatever "nbt" now holds; every other entry is kept as the library has it.
   */
  function WithNbtAliases(library: map<string, int>): (formats: map<string, int>)
    ensures formats.Keys == library.Keys + {"nbt", "namedtag"}
    ensures formats["nbt"] == NbtFormat
    ensures formats["namedtag"] == formats["nbt"]
    ensures forall k :: k in library && k != "nbt" && k != "namedtag" ==> formats[k] == library[k]
  {
    var formats := library["nbt" := NbtFormat];
    formats["namedtag" := formats["nbt"]]
  }
}
