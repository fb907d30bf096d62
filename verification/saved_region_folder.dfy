/**
 * SavedRegionFolder and its two variants: a read-only folder over a save file. The local
 * variant resolves image references against the save file's path, the remote one against
 * its URI (URIs are modelled as paths).
 */
module SavedFolders {
  import opened Wrappers
  import opened Paths
  import opened Regions
  import opened Indexing
  import opened Manifests

  datatype Backend = Local | Remote

  /** A loaded saved folder: its fixed region map and its pins. */
  datatype SavedRegionFolder = SavedRegionFolder(regions: map<Coord, Region>, pins: Option<WorldPins>) {

    function ListRegions(): set<Coord>
    {
      regions.Keys
    }

    /** render(pos): the stored region, null for a position that is not listed. */
    function Render(pos: Coord): (r: Option<Region>)
      ensures r.None? <==> pos !in ListRegions()
      ensures r.Some? ==> r.value == regions[pos]
    {
      if pos in regions then Some(regions[pos]) else None
    }

    function GetPins(): Option<WorldPins>
    {
      pins
    }
  }

  /**
   * The constructor's choice of world: the named one, which must exist, or, without a name,
   * the only world of the file.
   */
  function SelectWorld(saved: map<string, WorldObject>, name: Option<string>): (r: Result<WorldObject>)
    ensures name.Some? ==> (r.Ok? <==> name.value in saved)
    ensures name.Some? && r.Ok? ==> r.value == saved[name.value]
    ensures name.Some? && r.Err? ==> r.error == WorldNotFound(name.value)
    ensures name.None? ==> (r.Ok? <==> |saved| == 1)
    ensures name.None? && r.Ok? ==> saved.Values == {r.value}
    ensures name.None? && r.Err? ==> r.error == AmbiguousWorld(|saved|)
  {
    match name
    case Some(n) => if n in saved then Ok(saved[n]) else Err(WorldNotFound(n))
    case None =>
      if |saved| != 1 then Err(AmbiguousWorld(|saved|))
      else
        OnlyKey(saved);
        var k :| k in saved;
        Ok(saved[k])
  }

  lemma OnlyKey<K, V>(m: map<K, V>)
    requires |m| == 1
    ensures exists k :: m.Keys == {k}
  {
    var k :| k in m;
    assert |m.Keys - {k}| == 0;
    assert m.Keys - {k} == {};
    assert m.Keys == {k};
  }

  function ChunkKey(meta: ChunkMetadata): ChunkPos
  {
    meta.position
  }

  function Keep(meta: ChunkMetadata): Result<ChunkMetadata>
  {
    Ok(meta)
  }

  /** The chunk metadata list collected into a map by position; a repeated position fails. */
  function MetadataMap(list: seq<ChunkMetadata>): Result<map<ChunkPos, ChunkMetadata>>
  {
    Collect(list, ChunkKey, Keep)
  }

  /**
   * getRegion(rawRegion, base) of either variant: the stored position, the image reference
   * resolved as a sibling of the save file, and the metadata by chunk position. A null
   * metadata list fails in the local variant and is an empty list in the remote one.
   */
  function GetRegion(raw: RegionRecord, base: Path, backend: Backend): (r: Result<Region>)
    ensures r.Ok? ==>
      && r.value.SavedRegion? && r.value.position == Coord(raw.x, raw.z)
      && r.value.location == ResolveSibling(base, raw.image)
    ensures raw.metadata.None? ==> (r.Ok? <==> backend.Remote?)
    ensures raw.metadata.None? && r.Ok? ==> r.value.metadata == map[]
    ensures raw.metadata.Some? ==> (r.Ok? <==> MetadataMap(raw.metadata.value).Ok?)
    ensures raw.metadata.Some? && r.Ok? ==> var list := raw.metadata.value;
      && (forall i :: 0 <= i < |list| ==>
            list[i].position in r.value.metadata && r.value.metadata[list[i].position] == list[i])
      && (forall p :: p in r.value.metadata ==> exists i :: 0 <= i < |list| && list[i].position == p)
  {
    var pos := Coord(raw.x, raw.z);
    var location := ResolveSibling(base, raw.image);
    match raw.metadata
    case None =>
      if backend.Local? then Err(MissingMetadata) else Ok(SavedRegion(pos, location, map[]))
    case Some(list) =>
      var metadata :- MetadataMap(list);
      CollectContents(list, ChunkKey, Keep);
      Ok(SavedRegion(pos, location, metadata))
  }

  function RecordPos(raw: RegionRecord): Coord
  {
    Coord(raw.x, raw.z)
  }

  /** The region records collected into the folder's map; a repeated position fails. */
  function LoadRegions(records: seq<RegionRecord>, base: Path, backend: Backend): Result<map<Coord, Region>>
  {
    Collect(records, RecordPos, (raw: RegionRecord) => GetRegion(raw, base, backend))
  }

  /** The folder the file constructor builds from a parsed save file. */
  function Opened(manifest: ManifestFile, base: Path, name: Option<string>, backend: Backend): Result<SavedRegionFolder>
  {
    var saved :- SavedWorlds(manifest);
    var world :- SelectWorld(saved, name);
    if world.regions.None? then Err(MissingRegions)
    else
      var regions :- LoadRegions(world.regions.value, base, backend);
      Ok(SavedRegionFolder(regions, world.pins))
  }

  /**
   * LocalRegionFolder(file, name) and RemoteRegionFolder(uri, name), given the parsed contents
   * of the file at `base`.
   */
  method Open(manifest: ManifestFile, base: Path, name: Option<string>, backend: Backend) returns (r: Result<SavedRegionFolder>)
    ensures r == Opened(manifest, base, name, backend)
  {
    var saved :- ParseSaved(manifest);
    var world :- SelectWorld(saved, name);
    if world.regions.None? {
      return Err(MissingRegions);
    }
    var regions :- LoadRegions(world.regions.value, base, backend);
    return Ok(SavedRegionFolder(regions, world.pins));
  }

  /**
   * A folder loaded from a world's records lists exactly the records' positions, renders each
   * one as the region built from its record, and fails when a position repeats or a record
   * cannot be read.
   */
  lemma {:induction false} LoadRegionsSpec(records: seq<RegionRecord>, base: Path, backend: Backend)
    ensures LoadRegions(records, base, backend).Ok? <==>
      && (forall i :: 0 <= i < |records| ==> GetRegion(records[i], base, backend).Ok?)
      && (forall i, j :: 0 <= i < j < |records| ==> RecordPos(records[i]) != RecordPos(records[j]))
    ensures LoadRegions(records, base, backend).Ok? ==>
      var folder := SavedRegionFolder(LoadRegions(records, base, backend).value, None);
      && (forall pos :: pos in folder.ListRegions() <==> exists i :: 0 <= i < |records| && RecordPos(records[i]) == pos)
      && (forall i :: 0 <= i < |records| ==>
            folder.Render(RecordPos(records[i])) == Some(GetRegion(records[i], base, backend).value))
  {
    var valueOf := (raw: RegionRecord) => GetRegion(raw, base, backend);
    CollectSpec(records, RecordPos, valueOf);
    assert forall i :: 0 <= i < |records| ==> valueOf(records[i]) == GetRegion(records[i], base, backend);
  }

  /**
   * A file with two differently named worlds cannot be opened without a name; opened by the
   * name of either world, the folder holds that world's regions.
   */
  lemma {:induction false} TwoWorldsNeedAName(a: WorldObject, b: WorldObject, base: Path, backend: Backend)
    requires a.name.Some? && b.name.Some? && a.name != b.name
    requires a.regions.Some? && LoadRegions(a.regions.value, base, backend).Ok?
    ensures Opened(Array([a, b]), base, None, backend) == Err(AmbiguousWorld(2))
    ensures Opened(Array([a, b]), base, a.name, backend)
      == Ok(SavedRegionFolder(LoadRegions(a.regions.value, base, backend).value, a.pins))
  {
    var m := Array([a, b]);
    SavedWorldsSpec(m);
    var saved := SavedWorlds(m).value;
    assert Worlds(m)[0] == a && Worlds(m)[1] == b;
    assert saved.Keys == {a.name.value, b.name.value};
    assert |saved| == 2;
    assert saved[a.name.value] == a;
  }
}
