/**
 * The save file that lists rendered worlds: either one world object or an array of them.
 * A world object names the world and lists its regions, each with its position, its image
 * reference and its chunk metadata. The JSON text itself is not modelled; only the fields
 * the folders read are.
 */
module Manifests {
  import opened Wrappers
  import opened Paths
  import opened Regions
  import opened Indexing

  /** One element of a world's "regions" array; `metadata` is None when JSON null or missing. */
  datatype RegionRecord = RegionRecord(x: Int32, z: Int32, image: Path, metadata: Option<seq<ChunkMetadata>>)

  /** One world object; each field is None when it is missing or JSON null. */
  datatype WorldObject = WorldObject(name: Option<string>, pins: Option<WorldPins>, regions: Option<seq<RegionRecord>>)

  /** The top-level element of a save file. */
  datatype ManifestFile = Bare(world: WorldObject) | Array(worlds: seq<WorldObject>)

  /** The key parseSaved files a world under; a world without a name fails. */
  function WorldKey(o: WorldObject): Result<Option<string>>
  {
    if o.name.None? then Err(MissingName) else Ok(Some(o.name.value))
  }

  /** The worlds of a save file keyed by name; a bare object is a list of one. */
  function Worlds(m: ManifestFile): seq<WorldObject>
  {
    match m
    case Bare(o) => [o]
    case Array(ws) => ws
  }

  /** What parseSaved returns: a later world overwrites an earlier one of the same name. */
  function SavedWorlds(m: ManifestFile): Result<map<string, WorldObject>>
  {
    PutAll(Worlds(m), WorldKey)
  }

  /**
   * parseSaved succeeds exactly when every world has a name. Its keys are then exactly those
   * names, each world is filed under its own name, and a name that occurs several times holds
   * the last world carrying it.
   */
  lemma SavedWorldsSpec(m: ManifestFile)
    ensures SavedWorlds(m).Ok? <==> forall i :: 0 <= i < |Worlds(m)| ==> Worlds(m)[i].name.Some?
    ensures SavedWorlds(m).Err? ==> SavedWorlds(m).error == MissingName
    ensures SavedWorlds(m).Ok? ==> forall n :: n in SavedWorlds(m).value <==>
      exists i :: 0 <= i < |Worlds(m)| && Worlds(m)[i].name == Some(n)
    ensures SavedWorlds(m).Ok? ==> forall n :: n in SavedWorlds(m).value ==>
      SavedWorlds(m).value[n].name == Some(n)
    ensures SavedWorlds(m).Ok? ==> forall n :: n in SavedWorlds(m).value ==>
      exists i :: 0 <= i < |Worlds(m)| && SavedWorlds(m).value[n] == Worlds(m)[i]
        && forall j :: i < j < |Worlds(m)| ==> Worlds(m)[j].name != Some(n)
  {
    var ws := Worlds(m);
    PutAllFails(ws, WorldKey);
    assert forall i :: 0 <= i < |ws| ==> (WorldKey(ws[i]).Err? <==> ws[i].name.None?);
    if SavedWorlds(m).Ok? {
      PutAllContents(ws, WorldKey);
      assert forall i, n :: 0 <= i < |ws| ==> (StoredAt(ws, WorldKey, i, n) <==> ws[i].name == Some(n));
    }
  }

  /** A bare world object yields a map with one entry, under that world's name. */
  lemma SavedWorldsBare(o: WorldObject)
    requires o.name.Some?
    ensures SavedWorlds(Bare(o)) == Ok(map[o.name.value := o])
  {
    assert [o][..0] == [];
    assert PutAll([o][..0], WorldKey) == Ok(map[]);
  }

  /** parseSaved: the map from world name to world object, built by a put-loop. */
  method ParseSaved(parsed: ManifestFile) returns (r: Result<map<string, WorldObject>>)
    ensures r == SavedWorlds(parsed)
  {
    var saved: map<string, WorldObject> := map[];
    if parsed.Array? {
      var ws := parsed.worlds;
      for i := 0 to |ws|
        invariant PutAll(ws[..i], WorldKey) == Ok(saved)
      {
        var o := ws[i];
        assert ws[..i + 1][..i] == ws[..i];
        if o.name.None? {
          PutAllFails(ws, WorldKey);
          assert WorldKey(ws[i]).Err?;
          assert forall j :: 0 <= j < |ws| && WorldKey(ws[j]).Err? ==> WorldKey(ws[j]) == Err(MissingName);
          return Err(MissingName);
        }
        saved := saved[o.name.value := o];
      }
      assert ws[..|ws|] == ws;
    } else {
      var o := parsed.world;
      assert [o][..0] == [];
      assert PutAll([o][..0], WorldKey) == Ok(map[]);
      if o.name.None? {
        return Err(MissingName);
      }
      saved := saved[o.name.value := o];
    }
    return Ok(saved);
  }
}
