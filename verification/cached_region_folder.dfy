/**
 * CachedRegionFolder: a live folder whose renders are written as images into an image folder
 * and kept in a cache, so that a lazy folder can answer a repeated request from disk. It can
 * turn itself into a saved folder and write a save file that the saved folders read back.
 */
module CachedFolders {
  import opened Wrappers
  import opened Paths
  import opened Regions
  import opened RegionNames
  import opened Indexing
  import opened Manifests
  import opened WorldFolders
  import opened SavedFolders

  /**
   * The file system as render sees it: the last-modified time of every existing file. Writing
   * a file (an image, or a region file changed by the game) stamps it with the clock, which
   * then advances.
   */
  class Disk {
    var mtimes: map<Path, int>
    var clock: int

    /** Every recorded time lies in the past. */
    ghost predicate Valid()
      reads this
    {
      forall p :: p in mtimes ==> mtimes[p] < clock
    }

    constructor(mtimes: map<Path, int>, clock: int)
      requires forall p :: p in mtimes ==> mtimes[p] < clock
      ensures Valid() && this.mtimes == mtimes && this.clock == clock
    {
      this.mtimes := mtimes;
      this.clock := clock;
    }

    method Write(p: Path)
      requires Valid()
      modifies this
      ensures Valid()
      ensures mtimes == old(mtimes)[p := old(clock)] && clock == old(clock) + 1
    {
      mtimes := mtimes[p := clock];
      clock := clock + 1;
    }
  }

  /**
   * The image file of a region file: its file name with every `.mca` replaced by `.png`,
   * inside the image folder. A region path without a file name raises NullPointerException;
   * the empty path, whose file name is empty, resolves to the image folder itself.
   */
  function ImageFile(imageFolder: Path, region: Path): (r: Result<Path>)
    ensures r.Ok? <==> FileName(region).Some?
    ensures r.Err? ==> r.error == NoFileName
    ensures FileName(region) == Some("") ==> r == Ok(imageFolder)
    ensures r.Ok? && FileName(region) != Some("") ==>
      && FileName(r.value) == Some(ReplaceMca(FileName(region).value))
      && Parent(r.value) == if imageFolder == EmptyPath then None else Some(imageFolder)
  {
    match FileName(region)
    case None => Err(NoFileName)
    case Some(name) =>
      ReplaceMcaShape(name);
      Ok(Resolve(imageFolder, ReplaceMca(name)))
  }

  /** The region file `r.<x>.<z>.mca` of a position has the image `r.<x>.<z>.png`. */
  lemma CanonicalImageFile(imageFolder: Path, dir: Path, pos: Coord)
    ensures ImageFile(imageFolder, Resolve(dir, RegionFileName(pos)))
      == Ok(Resolve(imageFolder, "r." + Show(pos.x) + "." + Show(pos.z) + ".png"))
  {
    ImageNameOfRegionName(Show(pos.x), Show(pos.z));
  }

  /**
   * The cache test of render. The image and region times are only read for a cached position
   * of a lazy folder, and reading the time of a missing file raises NoSuchFileException;
   * the cached region is reused exactly when the image is strictly newer than the region file.
   */
  function Reusable(cached: bool, lazy: bool, image: Path, region: Path, mtimes: map<Path, int>): (r: Result<bool>)
    ensures r == Ok(true) <==>
      cached && lazy && image in mtimes && region in mtimes && mtimes[image] > mtimes[region]
    ensures r.Err? <==> cached && lazy && (image !in mtimes || region !in mtimes)
    ensures r.Err? ==> r.error == NoSuchFile
  {
    if !cached || !lazy then Ok(false)
    else if image !in mtimes || region !in mtimes then Err(NoSuchFile)
    else Ok(mtimes[image] > mtimes[region])
  }

  /**
   * An image written after its region file was last written is reusable; writing the region
   * file again (the game changing the region) makes it stale until the next render.
   */
  lemma WriteImageThenRegion(image: Path, region: Path, mtimes: map<Path, int>, clock: int)
    requires image != region && region in mtimes && forall p :: p in mtimes ==> mtimes[p] < clock
    ensures Reusable(true, true, image, region, mtimes[image := clock]) == Ok(true)
    ensures Reusable(true, true, image, region, mtimes[image := clock][region := clock + 1]) == Ok(false)
  {
  }

  /** What render does at a position. */
  datatype Step =
    | Absent                              // no region file: null
    | Reuse                               // the cached region
    | Redraw(region: Path, image: Path)   // render the region file and save it as the image

  /** The image reference save(file, name, relativePaths) writes for a region saved at `location`. */
  function ImageRef(imageFolder: Path, file: Path, relativePaths: bool, location: Path): (r: Result<Path>)
    ensures ImageFile(imageFolder, location).Err? ==> r == Err(NoFileName)
    ensures !relativePaths ==> r == ImageFile(imageFolder, location)
    ensures relativePaths && ImageFile(imageFolder, location).Ok? ==>
      (r.Ok? <==> Parent(file).Some? && Relatable(Parent(file).value, ImageFile(imageFolder, location).value))
  {
    var value :- ImageFile(imageFolder, location);
    if !relativePaths then Ok(value)
    else
      match Parent(file)
      case None => Err(NoParent)
      case Some(dir) => Relativize(dir, value)
  }

  /**
   * Read back as a sibling of the save file, a written image reference names the image file:
   * always when it is relative and the image folder lies under the save file's directory, and
   * when it is absolute provided the image folder is.
   */
  lemma ImageRefResolves(imageFolder: Path, file: Path, relativePaths: bool, location: Path)
    requires FileName(location).Some?
    requires relativePaths ==>
      && Parent(file).Some? && Parent(file).value.absolute == imageFolder.absolute
      && Parent(file).value.names <= imageFolder.names
    requires !relativePaths ==> imageFolder.absolute
    ensures ImageRef(imageFolder, file, relativePaths, location).Ok?
    ensures ResolveSibling(file, ImageRef(imageFolder, file, relativePaths, location).value)
      == ImageFile(imageFolder, location).value
  {
    var image := ImageFile(imageFolder, location).value;
    if relativePaths {
      assert Parent(file).value.names <= image.names;
      RelativizeThenResolveSibling(file, image);
    }
  }

  /** Every chunk's metadata is filed under that chunk's position. */
  ghost predicate WellKeyed(metadata: map<ChunkPos, ChunkMetadata>)
  {
    forall p :: p in metadata ==> metadata[p].position == p
  }

  /** `list` holds the values of `metadata` in the key order `keys`. */
  ghost predicate ListedBy(list: seq<ChunkMetadata>, keys: seq<ChunkPos>, metadata: map<ChunkPos, ChunkMetadata>)
  {
    && Enumerates(keys, metadata.Keys)
    && |list| == |keys|
    && forall i :: 0 <= i < |keys| ==> list[i] == metadata[keys[i]]
  }

  /** Map.values() serialised as a list: every value once, in some key order. */
  ghost predicate ListsValues(list: seq<ChunkMetadata>, metadata: map<ChunkPos, ChunkMetadata>)
  {
    exists keys :: ListedBy(list, keys, metadata)
  }

  /** The values of the chunk metadata map, in the map's iteration order. */
  method MetadataList(metadata: map<ChunkPos, ChunkMetadata>) returns (list: seq<ChunkMetadata>)
    ensures ListsValues(list, metadata)
  {
    var keys := Enumerate(metadata);
    list := [];
    for i := 0 to |keys|
      invariant |list| == i
      invariant forall t :: 0 <= t < i ==> list[t] == metadata[keys[t]]
    {
      list := list + [metadata[keys[i]]];
    }
    assert ListedBy(list, keys, metadata);
  }

  /** A well-keyed metadata map survives being written as a list and collected again. */
  lemma ListedMetadata(list: seq<ChunkMetadata>, metadata: map<ChunkPos, ChunkMetadata>)
    requires WellKeyed(metadata) && ListsValues(list, metadata)
    ensures MetadataMap(list) == Ok(metadata)
  {
    var keys :| ListedBy(list, keys, metadata);
    ListedKeys(list, keys, metadata);
    CollectSpec(list, ChunkKey, Keep);
    var m := Collect(list, ChunkKey, Keep).value;
    forall p | p in metadata ensures p in m && m[p] == metadata[p] {
      var i :| 0 <= i < |keys| && keys[i] == p;
      assert ChunkKey(list[i]) == p;
    }
    forall p | p in m ensures p in metadata {
      var i :| 0 <= i < |list| && ChunkKey(list[i]) == p;
      assert keys[i] == p;
    }
    SameMap(m, metadata);
    assert Collect(list, ChunkKey, Keep) == Ok(metadata);
  }

  lemma SameMap<K, V>(a: map<K, V>, b: map<K, V>)
    requires forall k :: k in b ==> k in a && a[k] == b[k]
    requires forall k :: k in a ==> k in b
    ensures a == b
  {
  }

  /** The positions of a well-keyed list are its keys, so they do not repeat. */
  lemma ListedKeys(list: seq<ChunkMetadata>, keys: seq<ChunkPos>, metadata: map<ChunkPos, ChunkMetadata>)
    requires WellKeyed(metadata) && ListedBy(list, keys, metadata)
    ensures forall i :: 0 <= i < |list| ==> ChunkKey(list[i]) == keys[i] && Keep(list[i]).Ok?
    ensures DistinctKeys(list, ChunkKey)
  {
    forall i | 0 <= i < |list| ensures ChunkKey(list[i]) == keys[i] {
      assert keys[i] in metadata;
    }
  }

  /** The worlds already in the save file: none when it does not exist, otherwise parseSaved's. */
  function Prior(existing: Option<ManifestFile>): Result<map<string, WorldObject>>
  {
    match existing
    case None => Ok(map[])
    case Some(m) => SavedWorlds(m)
  }

  /** Every world is filed under its own name. */
  ghost predicate NamedByKey(worlds: map<string, WorldObject>)
  {
    forall n :: n in worlds ==> worlds[n].name == Some(n)
  }

  /**
   * `kept` holds every prior world whose name is not `name`, each once, and nothing else.
   */
  ghost predicate KeepsOthers(kept: seq<WorldObject>, prior: map<string, WorldObject>, name: string)
  {
    && (forall i :: 0 <= i < |kept| ==>
          && kept[i].name.Some? && kept[i].name.value != name
          && kept[i].name.value in prior && prior[kept[i].name.value] == kept[i])
    && (forall n :: n in prior && n != name ==> exists i :: 0 <= i < |kept| && kept[i].name == Some(n))
    && (forall i, j :: 0 <= i < j < |kept| ==> kept[i].name != kept[j].name)
  }

  /** The record written for the cached region at `pos`. */
  ghost predicate WritesEntry(record: RegionRecord, pos: Coord, region: Region, imageFolder: Path, file: Path, relativePaths: bool)
  {
    && region.SavedRegion?
    && record.x == pos.x && record.z == pos.z
    && ImageRef(imageFolder, file, relativePaths, region.location) == Ok(record.image)
    && record.metadata.Some? && ListsValues(record.metadata.value, region.metadata)
  }

  /** `records` holds one record per cache entry, in the cache's iteration order `order`. */
  ghost predicate WritesCache(records: seq<RegionRecord>, order: seq<Coord>, cache: map<Coord, Region>,
                              imageFolder: Path, file: Path, relativePaths: bool)
  {
    && Enumerates(order, cache.Keys)
    && |records| == |order|
    && forall i :: 0 <= i < |order| ==>
         WritesEntry(records[i], order[i], cache[order[i]], imageFolder, file, relativePaths)
  }

  /**
   * The file save(file, name, relativePaths) writes: a bare world object when the file held no
   * world, otherwise an array of the other worlds followed by the new one. The new world has
   * the name, no pins and a record per cache entry.
   */
  ghost predicate SavedAs(m: ManifestFile, prior: map<string, WorldObject>, name: string, order: seq<Coord>,
                          cache: map<Coord, Region>, imageFolder: Path, file: Path, relativePaths: bool)
  {
    var ws := Worlds(m);
    && (m.Bare? <==> |prior| == 0)
    && |ws| > 0
    && KeepsOthers(ws[..|ws| - 1], prior, name)
    && ws[|ws| - 1].name == Some(name) && ws[|ws| - 1].pins.None? && ws[|ws| - 1].regions.Some?
    && WritesCache(ws[|ws| - 1].regions.value, order, cache, imageFolder, file, relativePaths)
  }

  class CachedRegionFolder {
    const world: WorldRegionFolder
    const lazy: bool
    const imageFolder: Path
    var cache: map<Coord, Region>

    /**
     * The cache only holds positions of the world, each as the region saved at the image file
     * of that position's region file.
     */
    ghost predicate Valid()
      reads this
    {
      forall pos :: pos in cache ==>
        && pos in world.ListRegions()
        && cache[pos].SavedRegion? && cache[pos].position == pos
        && ImageFile(imageFolder, world.regions[pos]) == Ok(cache[pos].location)
    }

    constructor(world: WorldRegionFolder, lazy: bool, imageFolder: Path)
      ensures Valid()
      ensures this.world == world && this.lazy == lazy && this.imageFolder == imageFolder && cache == map[]
    {
      this.world := world;
      this.lazy := lazy;
      this.imageFolder := imageFolder;
      cache := map[];
    }

    /** What render(pos) does, given the disk's modification times. */
    function Plan(pos: Coord, mtimes: map<Path, int>): Result<Step>
      reads this
    {
      match world.GetPath(pos)
      case None => Ok(Absent)
      case Some(region) =>
        var image :- ImageFile(imageFolder, region);
        var reuse :- Reusable(pos in cache, lazy, image, region, mtimes);
        Ok(if reuse then Reuse else Redraw(region, image))
    }

    /**
     * render(pos): null without a region file; the cached region when it may be reused;
     * otherwise the renderer is invoked, the result is saved as the image file, which becomes
     * newer than any file on disk, and the cache then holds the saved region. A failure
     * changes nothing.
     */
    method Render(pos: Coord, disk: Disk) returns (r: Result<Option<Region>>)
      requires Valid() && disk.Valid()
      modifies this, disk, world.renderer
      ensures Valid() && disk.Valid()
      ensures r.Ok? && r.value.Some? ==> pos in cache
      ensures old(Plan(pos, disk.mtimes)).Err? ==>
        r == Err(old(Plan(pos, disk.mtimes)).error) && unchanged(this, disk, world.renderer)
      ensures old(Plan(pos, disk.mtimes)) == Ok(Absent) ==>
        r == Ok(None) && unchanged(this, disk, world.renderer)
      ensures old(Plan(pos, disk.mtimes)) == Ok(Reuse) ==>
        unchanged(this, disk, world.renderer) && pos in cache && r == Ok(Some(cache[pos]))
      ensures old(Plan(pos, disk.mtimes)).Ok? && old(Plan(pos, disk.mtimes)).value.Redraw? ==>
        var step := old(Plan(pos, disk.mtimes)).value;
        var rendered := world.renderer.Draw(pos, step.region);
        && r == Ok(Some(rendered))
        && world.renderer.log == old(world.renderer.log) + [pos]
        && cache == old(cache)[pos := SaveTo(rendered, step.image)]
        && disk.mtimes == old(disk.mtimes)[step.image := old(disk.clock)]
        && disk.clock == old(disk.clock) + 1
    {
      var path := world.GetPath(pos);
      if path.None? {
        return Ok(None);
      }
      var region := path.value;
      var image :- ImageFile(imageFolder, region);
      var reuse :- Reusable(pos in cache, lazy, image, region, disk.mtimes);
      if reuse {
        return Ok(Some(cache[pos]));
      }
      var rendered := world.Render(pos);
      disk.Write(image);
      cache := cache[pos := SaveTo(rendered.value, image)];
      return Ok(Some(rendered.value));
    }

    /** listRegions(): the world's positions, rendered or not. */
    function ListRegions(): (r: set<Coord>)
      ensures forall pos :: pos in r <==> world.GetPath(pos).Some?
    {
      world.ListRegions()
    }

    /** getPins(): the world's pins. */
    function GetPins(): Option<WorldPins>
      reads world
    {
      world.GetPins()
    }

    /**
     * save(): a local saved folder over the cache and the world's pins. It lists the rendered
     * positions only, and renders each as its saved image.
     */
    function Save(): (folder: SavedRegionFolder)
      requires Valid()
      reads this, world
      ensures folder.ListRegions() == cache.Keys && folder.ListRegions() <= ListRegions()
      ensures forall pos :: pos in cache ==> folder.Render(pos) == Some(cache[pos])
      ensures folder.GetPins() == GetPins()
    {
      SavedRegionFolder(cache, world.pins)
    }

    /**
     * save(file, name, relativePaths), given the parsed contents of `file` when it exists:
     * the contents written to it. `order` is the cache's iteration order.
     */
    method SaveManifest(file: Path, name: string, relativePaths: bool, existing: Option<ManifestFile>)
      returns (r: Result<ManifestFile>, ghost order: seq<Coord>)
      requires Valid()
      ensures Prior(existing).Err? ==> r == Err(Prior(existing).error)
      ensures Prior(existing).Ok? ==>
        (r.Ok? <==> forall pos :: pos in cache ==> ImageRef(imageFolder, file, relativePaths, cache[pos].location).Ok?)
      ensures r.Err? && Prior(existing).Ok? ==>
        exists pos :: pos in cache && ImageRef(imageFolder, file, relativePaths, cache[pos].location) == Err(r.error)
      ensures r.Ok? ==> Prior(existing).Ok?
      ensures r.Ok? && Prior(existing).Ok? ==>
        SavedAs(r.value, Prior(existing).value, name, order, cache, imageFolder, file, relativePaths)
    {
      order := [];
      var prior: map<string, WorldObject> := map[];
      if existing.Some? {
        prior :- ParseSaved(existing.value);
      }
      PriorNamedByKey(existing);
      var kept := KeepOthers(prior, name);
      var keys := Enumerate(cache);
      order := keys;
      var records :- WriteRecords(cache, keys, imageFolder, file, relativePaths);
      MergeIsSaved(prior, kept, name, records, order, cache, imageFolder, file, relativePaths);
      r := Ok(Merge(prior, kept, WorldObject(Some(name), None, Some(records))));
    }
  }

  /**
   * The region records save writes for the cache, in the iteration order `order`; the first
   * image reference that cannot be written aborts.
   */
  method WriteRecords(cache: map<Coord, Region>, order: seq<Coord>, imageFolder: Path, file: Path, relativePaths: bool)
    returns (r: Result<seq<RegionRecord>>)
    requires Enumerates(order, cache.Keys)
    requires forall pos :: pos in cache ==> cache[pos].SavedRegion?
    ensures r.Ok? <==> forall pos :: pos in cache ==> ImageRef(imageFolder, file, relativePaths, cache[pos].location).Ok?
    ensures r.Err? ==>
      exists pos :: pos in cache && ImageRef(imageFolder, file, relativePaths, cache[pos].location) == Err(r.error)
    ensures r.Ok? ==> WritesCache(r.value, order, cache, imageFolder, file, relativePaths)
  {
    var records: seq<RegionRecord> := [];
    for i := 0 to |order|
      invariant |records| == i
      invariant forall t :: 0 <= t < i ==> WritesEntry(records[t], order[t], cache[order[t]], imageFolder, file, relativePaths)
    {
      var pos := order[i];
      var region := cache[pos];
      var image := ImageRef(imageFolder, file, relativePaths, region.location);
      if image.Err? {
        return Err(image.error);
      }
      var metadata := MetadataList(region.metadata);
      records := records + [RegionRecord(pos.x, pos.z, image.value, Some(metadata))];
    }
    WrittenRefsResolve(records, order, cache, imageFolder, file, relativePaths);
    return Ok(records);
  }

  /** Once every record is written, every cached region's image reference could be written. */
  lemma WrittenRefsResolve(records: seq<RegionRecord>, order: seq<Coord>, cache: map<Coord, Region>,
                           imageFolder: Path, file: Path, relativePaths: bool)
    requires WritesCache(records, order, cache, imageFolder, file, relativePaths)
    ensures forall pos :: pos in cache ==> ImageRef(imageFolder, file, relativePaths, cache[pos].location).Ok?
  {
    forall pos | pos in cache ensures ImageRef(imageFolder, file, relativePaths, cache[pos].location).Ok? {
      var t :| 0 <= t < |order| && order[t] == pos;
      assert WritesEntry(records[t], order[t], cache[order[t]], imageFolder, file, relativePaths);
    }
  }

  /** parseSaved files every world under its own name. */
  lemma PriorNamedByKey(existing: Option<ManifestFile>)
    requires Prior(existing).Ok?
    ensures NamedByKey(Prior(existing).value)
  {
    if existing.Some? {
      SavedWorldsSpec(existing.value);
    }
  }

  /**
   * The file save writes: the new world alone when the file held no world, otherwise the kept
   * worlds followed by the new one.
   */
  function Merge(prior: map<string, WorldObject>, kept: seq<WorldObject>, created: WorldObject): (m: ManifestFile)
    ensures m.Bare? <==> |prior| == 0
    ensures |Worlds(m)| > 0 && Worlds(m)[|Worlds(m)| - 1] == created
    ensures |prior| > 0 ==> Worlds(m) == kept + [created]
  {
    if |prior| == 0 then Bare(created) else Array(kept + [created])
  }

  /** The merged file has the shape save promises. */
  lemma MergeIsSaved(prior: map<string, WorldObject>, kept: seq<WorldObject>, name: string, records: seq<RegionRecord>,
                     order: seq<Coord>, cache: map<Coord, Region>, imageFolder: Path, file: Path, relativePaths: bool)
    requires KeepsOthers(kept, prior, name)
    requires WritesCache(records, order, cache, imageFolder, file, relativePaths)
    ensures SavedAs(Merge(prior, kept, WorldObject(Some(name), None, Some(records))),
                    prior, name, order, cache, imageFolder, file, relativePaths)
  {
    var ws := Worlds(Merge(prior, kept, WorldObject(Some(name), None, Some(records))));
    if |prior| == 0 {
      assert ws[..0] == [];
    } else {
      assert ws[..|ws| - 1] == kept;
    }
  }

  /** The prior worlds whose name differs from `name`, in the map's iteration order. */
  method KeepOthers(prior: map<string, WorldObject>, name: string) returns (kept: seq<WorldObject>)
    requires NamedByKey(prior)
    ensures KeepsOthers(kept, prior, name)
  {
    var names := Enumerate(prior);
    kept := [];
    ghost var from: seq<nat> := [];
    for i := 0 to |names|
      invariant |from| == |kept|
      invariant forall s :: 0 <= s < |kept| ==>
        && from[s] < i && names[from[s]] != name
        && kept[s] == prior[names[from[s]]] && kept[s].name == Some(names[from[s]])
      invariant forall s, t :: 0 <= s < t < |kept| ==> from[s] < from[t]
      invariant forall t :: 0 <= t < i && names[t] != name ==> t in from
    {
      var o := prior[names[i]];
      if o.name != Some(name) {
        kept := kept + [o];
        from := from + [i];
      }
    }
    Filtered(prior, name, names, kept, from);
  }

  /** The worlds kept by the filtering loop are exactly the other worlds, each once. */
  lemma Filtered(prior: map<string, WorldObject>, name: string, names: seq<string>, kept: seq<WorldObject>, from: seq<nat>)
    requires Enumerates(names, prior.Keys) && |from| == |kept|
    requires forall s :: 0 <= s < |kept| ==>
      && from[s] < |names| && names[from[s]] != name
      && kept[s] == prior[names[from[s]]] && kept[s].name == Some(names[from[s]])
    requires forall s, t :: 0 <= s < t < |kept| ==> from[s] < from[t]
    requires forall t :: 0 <= t < |names| && names[t] != name ==> t in from
    ensures KeepsOthers(kept, prior, name)
  {
    forall n | n in prior && n != name
      ensures exists s :: 0 <= s < |kept| && kept[s].name == Some(n)
    {
      var t :| 0 <= t < |names| && names[t] == n;
      assert t in from;
      var s :| 0 <= s < |from| && from[s] == t;
      assert kept[s].name == Some(n);
    }
    forall s, u | 0 <= s < u < |kept| ensures kept[s].name != kept[u].name {
      assert names[from[s]] != names[from[u]];
    }
  }

  /**
   * A world written by save is read back by LocalRegionFolder(file, name): the folder lists
   * exactly the cached positions, has no pins, and holds every cached region with its chunk
   * metadata and, as its location, the written image reference resolved against the save file.
   */
  lemma {:induction false} SaveThenOpen(m: ManifestFile, prior: map<string, WorldObject>, name: string, order: seq<Coord>,
                                        cache: map<Coord, Region>, imageFolder: Path, file: Path, relativePaths: bool)
    requires SavedAs(m, prior, name, order, cache, imageFolder, file, relativePaths)
    requires forall pos :: pos in cache ==> cache[pos].SavedRegion? && WellKeyed(cache[pos].metadata)
    ensures Opened(m, file, Some(name), Local).Ok?
    ensures var folder := Opened(m, file, Some(name), Local).value;
      && folder.ListRegions() == cache.Keys
      && folder.GetPins() == None
      && forall pos :: pos in cache ==>
           && ImageRef(imageFolder, file, relativePaths, cache[pos].location).Ok?
           && folder.Render(pos) == Some(SavedRegion(pos,
                ResolveSibling(file, ImageRef(imageFolder, file, relativePaths, cache[pos].location).value),
                cache[pos].metadata))
  {
    var ws := Worlds(m);
    var last := |ws| - 1;
    assert forall i :: 0 <= i < last ==> ws[..last][i] == ws[i];
    LastNameWins(m, name);
    CachedRecordsLoad(ws[last].regions.value, order, cache, imageFolder, file, relativePaths);
  }

  /**
   * Opened by a name that only the last world of a file carries, every world being named,
   * the file yields that last world.
   */
  lemma LastNameWins(m: ManifestFile, name: string)
    requires |Worlds(m)| > 0 && Worlds(m)[|Worlds(m)| - 1].name == Some(name)
    requires forall i :: 0 <= i < |Worlds(m)| - 1 ==> Worlds(m)[i].name.Some? && Worlds(m)[i].name != Some(name)
    ensures SavedWorlds(m).Ok?
    ensures SelectWorld(SavedWorlds(m).value, Some(name)) == Ok(Worlds(m)[|Worlds(m)| - 1])
  {
    var ws := Worlds(m);
    var last := |ws| - 1;
    SavedWorldsSpec(m);
    var saved := SavedWorlds(m).value;
    var i :| 0 <= i < |ws| && saved[name] == ws[i] && forall j :: i < j < |ws| ==> ws[j].name != Some(name);
    assert i == last;
  }

  /**
   * The records save writes for a cache with well-keyed metadata load back as a folder of
   * exactly the cached positions, each with its metadata and its image reference resolved
   * against the save file.
   */
  lemma CachedRecordsLoad(records: seq<RegionRecord>, order: seq<Coord>, cache: map<Coord, Region>,
                          imageFolder: Path, file: Path, relativePaths: bool)
    requires WritesCache(records, order, cache, imageFolder, file, relativePaths)
    requires forall pos :: pos in cache ==> cache[pos].SavedRegion? && WellKeyed(cache[pos].metadata)
    ensures LoadRegions(records, file, Local).Ok?
    ensures var folder := SavedRegionFolder(LoadRegions(records, file, Local).value, None);
      && folder.ListRegions() == cache.Keys
      && forall pos :: pos in cache ==>
           && ImageRef(imageFolder, file, relativePaths, cache[pos].location).Ok?
           && folder.Render(pos) == Some(SavedRegion(pos,
                ResolveSibling(file, ImageRef(imageFolder, file, relativePaths, cache[pos].location).value),
                cache[pos].metadata))
  {
    EntriesLoad(records, order, cache, imageFolder, file, relativePaths);
    RecordsLoad(records, order, cache, file);
    var folder := SavedRegionFolder(LoadRegions(records, file, Local).value, None);
    forall pos | pos in cache
      ensures ImageRef(imageFolder, file, relativePaths, cache[pos].location).Ok?
      ensures folder.Render(pos) == Some(SavedRegion(pos,
        ResolveSibling(file, ImageRef(imageFolder, file, relativePaths, cache[pos].location).value),
        cache[pos].metadata))
    {
      var t :| 0 <= t < |order| && order[t] == pos;
    }
  }

  /** Each written record loads back as its cache entry. */
  lemma EntriesLoad(records: seq<RegionRecord>, order: seq<Coord>, cache: map<Coord, Region>,
                    imageFolder: Path, file: Path, relativePaths: bool)
    requires WritesCache(records, order, cache, imageFolder, file, relativePaths)
    requires forall pos :: pos in cache ==> cache[pos].SavedRegion? && WellKeyed(cache[pos].metadata)
    ensures forall t :: 0 <= t < |records| ==>
      && RecordPos(records[t]) == order[t]
      && GetRegion(records[t], file, Local)
           == Ok(SavedRegion(order[t], ResolveSibling(file, records[t].image), cache[order[t]].metadata))
  {
    forall t | 0 <= t < |records|
      ensures RecordPos(records[t]) == order[t]
      ensures GetRegion(records[t], file, Local)
        == Ok(SavedRegion(order[t], ResolveSibling(file, records[t].image), cache[order[t]].metadata))
    {
      EntryLoads(records[t], order[t], cache[order[t]], imageFolder, file, relativePaths);
    }
  }

  /** Records with distinct positions, each loading as its cache entry, load as the cache's regions. */
  lemma RecordsLoad(records: seq<RegionRecord>, order: seq<Coord>, cache: map<Coord, Region>, file: Path)
    requires Enumerates(order, cache.Keys) && |records| == |order|
    requires forall t :: 0 <= t < |records| ==>
      && RecordPos(records[t]) == order[t]
      && GetRegion(records[t], file, Local)
           == Ok(SavedRegion(order[t], ResolveSibling(file, records[t].image), cache[order[t]].metadata))
    ensures LoadRegions(records, file, Local).Ok?
    ensures var folder := SavedRegionFolder(LoadRegions(records, file, Local).value, None);
      && folder.ListRegions() == cache.Keys
      && forall t :: 0 <= t < |records| ==>
           folder.Render(order[t]) == Some(SavedRegion(order[t], ResolveSibling(file, records[t].image), cache[order[t]].metadata))
  {
    LoadRegionsSpec(records, file, Local);
    RecordsListed(records, order, cache, LoadRegions(records, file, Local).value.Keys);
  }

  /** The positions of records written in the cache's iteration order are the cache's positions. */
  lemma RecordsListed(records: seq<RegionRecord>, order: seq<Coord>, cache: map<Coord, Region>, listed: set<Coord>)
    requires Enumerates(order, cache.Keys) && |records| == |order|
    requires forall t :: 0 <= t < |records| ==> RecordPos(records[t]) == order[t]
    requires forall pos :: pos in listed <==> exists t :: 0 <= t < |records| && RecordPos(records[t]) == pos
    ensures listed == cache.Keys
  {
    forall pos | pos in listed ensures pos in cache {
      var t :| 0 <= t < |records| && RecordPos(records[t]) == pos;
      assert order[t] == pos;
    }
    forall pos | pos in cache ensures pos in listed {
      var t :| 0 <= t < |order| && order[t] == pos;
      assert RecordPos(records[t]) == pos;
    }
  }

  /** One written record loads back as the cached region's position, image and metadata. */
  lemma EntryLoads(record: RegionRecord, pos: Coord, region: Region, imageFolder: Path, file: Path, relativePaths: bool)
    requires WritesEntry(record, pos, region, imageFolder, file, relativePaths) && WellKeyed(region.metadata)
    ensures RecordPos(record) == pos
    ensures GetRegion(record, file, Local) == Ok(SavedRegion(pos, ResolveSibling(file, record.image), region.metadata))
  {
    ListedMetadata(record.metadata.value, region.metadata);
  }

  /**
   * The image file of an image file is itself: a second `.mca` to `.png` pass changes nothing.
   * (The empty path is left out: it resolves to the image folder, whose own image differs.)
   */
  lemma ImageFileIdempotent(imageFolder: Path, region: Path)
    requires FileName(region).Some? && FileName(region) != Some("")
    ensures ImageFile(imageFolder, ImageFile(imageFolder, region).value) == ImageFile(imageFolder, region)
  {
    ReplaceMcaIdempotent(FileName(region).value);
  }

  /**
   * Saved with image references that resolve (relative references under the save file's
   * directory, absolute ones from an absolute image folder), a valid cached folder whose region
   * files all have a name reads back as a saved folder holding exactly its cache: same
   * positions, same locations, same metadata.
   */
  lemma SavedCacheReadsBack(folder: CachedRegionFolder, m: ManifestFile, prior: map<string, WorldObject>,
                            name: string, order: seq<Coord>, file: Path, relativePaths: bool)
    requires folder.Valid()
    requires SavedAs(m, prior, name, order, folder.cache, folder.imageFolder, file, relativePaths)
    requires forall pos :: pos in folder.cache ==> WellKeyed(folder.cache[pos].metadata)
    requires forall pos :: pos in folder.cache ==> FileName(folder.world.regions[pos]) != Some("")
    requires relativePaths ==>
      && Parent(file).Some? && Parent(file).value.absolute == folder.imageFolder.absolute
      && Parent(file).value.names <= folder.imageFolder.names
    requires !relativePaths ==> folder.imageFolder.absolute
    ensures Opened(m, file, Some(name), Local).Ok?
    ensures var saved := Opened(m, file, Some(name), Local).value;
      && saved.ListRegions() == folder.cache.Keys
      && forall pos :: pos in folder.cache ==> saved.Render(pos) == Some(folder.cache[pos])
  {
    var cache, imageFolder := folder.cache, folder.imageFolder;
    SaveThenOpen(m, prior, name, order, cache, imageFolder, file, relativePaths);
    forall pos | pos in cache
      ensures ResolveSibling(file, ImageRef(imageFolder, file, relativePaths, cache[pos].location).value)
        == cache[pos].location
    {
      var region := folder.world.regions[pos];
      ImageFileIdempotent(imageFolder, region);
      ImageRefResolves(imageFolder, file, relativePaths, cache[pos].location);
    }
  }

  /** Writing a file other than the region file keeps a reusable image reusable. */
  lemma WriteKeepsReusable(image: Path, region: Path, written: Path, mtimes: map<Path, int>, clock: int)
    requires forall p :: p in mtimes ==> mtimes[p] < clock
    requires Reusable(true, true, image, region, mtimes) == Ok(true) && written != region
    ensures Reusable(true, true, image, region, mtimes[written := clock]) == Ok(true)
  {
  }

  /**
   * The image of the region file at `pos` is cached and strictly newer than the region file:
   * a lazy folder answers a render of `pos` from the cache.
   */
  ghost predicate FreshIn(cache: map<Coord, Region>, regions: map<Coord, Path>, imageFolder: Path,
                          pos: Coord, mtimes: map<Path, int>)
  {
    && pos in cache && pos in regions && FileName(regions[pos]).Some?
    && Reusable(true, true, ImageFile(imageFolder, regions[pos]).value, regions[pos], mtimes) == Ok(true)
  }

  /**
   * Distinct positions with region files that exist and have a file name, whose image files
   * are none of those region files, and whose cached images exist.
   */
  ghost predicate Renderable(cache: map<Coord, Region>, regions: map<Coord, Path>, imageFolder: Path,
                             mtimes: map<Path, int>, ps: seq<Coord>)
  {
    && (forall s, t :: 0 <= s < t < |ps| ==> ps[s] != ps[t])
    && (forall p :: p in ps ==>
          && p in regions && regions[p] in mtimes && FileName(regions[p]).Some?
          && (p in cache ==> ImageFile(imageFolder, regions[p]).value in mtimes))
    && (forall p, q :: p in ps && q in ps ==> ImageFile(imageFolder, regions[p]).value != regions[q])
  }

  /**
   * For a position whose region file exists, render reuses the cache exactly when the folder
   * is lazy and the cached image is fresh; otherwise it draws the region file again.
   */
  lemma PlanOf(folder: CachedRegionFolder, pos: Coord, mtimes: map<Path, int>)
    requires pos in folder.world.regions && FileName(folder.world.regions[pos]).Some?
    requires folder.world.regions[pos] in mtimes
    requires pos in folder.cache ==> ImageFile(folder.imageFolder, folder.world.regions[pos]).value in mtimes
    ensures var region := folder.world.regions[pos];
      folder.Plan(pos, mtimes) ==
        if folder.lazy && FreshIn(folder.cache, folder.world.regions, folder.imageFolder, pos, mtimes) then Ok(Reuse)
        else Ok(Redraw(region, ImageFile(folder.imageFolder, region).value))
  {
  }

  /**
   * Redrawing one of the positions (caching it and writing its image) keeps them renderable,
   * makes that position fresh, and leaves every fresh position fresh.
   */
  lemma AfterRedraw(cache: map<Coord, Region>, regions: map<Coord, Path>, imageFolder: Path,
                    mtimes: map<Path, int>, clock: int, ps: seq<Coord>, pos: Coord, saved: Region)
    requires Renderable(cache, regions, imageFolder, mtimes, ps) && pos in ps
    requires forall p :: p in mtimes ==> mtimes[p] < clock
    ensures var image := ImageFile(imageFolder, regions[pos]).value;
      && Renderable(cache[pos := saved], regions, imageFolder, mtimes[image := clock], ps)
      && FreshIn(cache[pos := saved], regions, imageFolder, pos, mtimes[image := clock])
      && forall p :: p in ps && FreshIn(cache, regions, imageFolder, p, mtimes) ==>
           FreshIn(cache[pos := saved], regions, imageFolder, p, mtimes[image := clock])
  {
    var image := ImageFile(imageFolder, regions[pos]).value;
    WriteImageThenRegion(image, regions[pos], mtimes, clock);
    forall p | p in ps && FreshIn(cache, regions, imageFolder, p, mtimes)
      ensures FreshIn(cache[pos := saved], regions, imageFolder, p, mtimes[image := clock])
    {
      WriteKeepsReusable(ImageFile(imageFolder, regions[p]).value, regions[p], image, mtimes, clock);
    }
  }

  /**
   * The state of a render pass over `ps` once its first `i` positions are done, started from
   * the cache keys `keys0` and the renderer log `log0`; `allNew` says that no position was
   * cached at the start and `allFresh` that the folder is lazy and every position was fresh.
   */
  ghost predicate PassDone(cache: map<Coord, Region>, mtimes: map<Path, int>, log: seq<Coord>, lazy: bool,
                           regions: map<Coord, Path>, imageFolder: Path, ps: seq<Coord>, i: nat,
                           keys0: set<Coord>, log0: seq<Coord>, allNew: bool, allFresh: bool)
  {
    && i <= |ps|
    && Renderable(cache, regions, imageFolder, mtimes, ps)
    && (forall t :: 0 <= t < i ==> ps[t] in cache)
    && (lazy ==> forall t :: 0 <= t < i ==> FreshIn(cache, regions, imageFolder, ps[t], mtimes))
    && (forall t :: i <= t < |ps| && ps[t] !in keys0 ==> ps[t] !in cache)
    && (!lazy || allNew ==> log == log0 + ps[..i])
    && (allFresh ==> log == log0 && forall p :: p in ps ==> FreshIn(cache, regions, imageFolder, p, mtimes))
  }

  /** A render that reuses the cache for a fresh position advances the pass. */
  lemma PassReuse(cache: map<Coord, Region>, mtimes: map<Path, int>, log: seq<Coord>, lazy: bool,
                  regions: map<Coord, Path>, imageFolder: Path, ps: seq<Coord>, i: nat,
                  keys0: set<Coord>, log0: seq<Coord>, allNew: bool, allFresh: bool)
    requires i < |ps| && lazy && FreshIn(cache, regions, imageFolder, ps[i], mtimes)
    requires allNew ==> forall p :: p in ps ==> p !in keys0
    requires PassDone(cache, mtimes, log, lazy, regions, imageFolder, ps, i, keys0, log0, allNew, allFresh)
    ensures PassDone(cache, mtimes, log, lazy, regions, imageFolder, ps, i + 1, keys0, log0, allNew, allFresh)
  {
  }

  /** A render that draws the region again advances the pass. */
  lemma PassRedraw(cache: map<Coord, Region>, mtimes: map<Path, int>, clock: int, log: seq<Coord>, lazy: bool,
                   regions: map<Coord, Path>, imageFolder: Path, ps: seq<Coord>, i: nat,
                   keys0: set<Coord>, log0: seq<Coord>, allNew: bool, allFresh: bool, saved: Region)
    requires i < |ps| && !(lazy && FreshIn(cache, regions, imageFolder, ps[i], mtimes))
    requires forall p :: p in mtimes ==> mtimes[p] < clock
    requires allFresh ==> lazy
    requires PassDone(cache, mtimes, log, lazy, regions, imageFolder, ps, i, keys0, log0, allNew, allFresh)
    ensures var image := ImageFile(imageFolder, regions[ps[i]]).value;
      PassDone(cache[ps[i] := saved], mtimes[image := clock], log + [ps[i]], lazy, regions, imageFolder, ps, i + 1,
               keys0, log0, allNew, allFresh)
  {
    AfterRedraw(cache, regions, imageFolder, mtimes, clock, ps, ps[i], saved);
    assert ps[..i + 1] == ps[..i] + [ps[i]];
  }

  /**
   * One render pass over `ps`. Afterwards every position is cached, and for a lazy folder
   * fresh. An eager folder invokes the renderer for every position; so does a lazy one when
   * no position was cached, and it does not invoke it at all when every position was fresh.
   */
  method RenderPass(folder: CachedRegionFolder, disk: Disk, ps: seq<Coord>)
    requires folder.Valid() && disk.Valid()
    requires Renderable(folder.cache, folder.world.regions, folder.imageFolder, disk.mtimes, ps)
    modifies folder, disk, folder.world.renderer
    ensures folder.Valid() && disk.Valid()
    ensures Renderable(folder.cache, folder.world.regions, folder.imageFolder, disk.mtimes, ps)
    ensures forall p :: p in ps ==> p in folder.cache
    ensures folder.lazy ==> forall p :: p in ps ==>
      FreshIn(folder.cache, folder.world.regions, folder.imageFolder, p, disk.mtimes)
    ensures !folder.lazy ==> folder.world.renderer.log == old(folder.world.renderer.log) + ps
    ensures (forall p :: p in ps ==> p !in old(folder.cache)) ==>
      folder.world.renderer.log == old(folder.world.renderer.log) + ps
    ensures folder.lazy && (forall p :: p in ps ==>
        old(FreshIn(folder.cache, folder.world.regions, folder.imageFolder, p, disk.mtimes))) ==>
      folder.world.renderer.log == old(folder.world.renderer.log)
  {
    var regions, imageFolder := folder.world.regions, folder.imageFolder;
    ghost var keys0, log0 := folder.cache.Keys, folder.world.renderer.log;
    ghost var allNew := forall p :: p in ps ==> p !in keys0;
    ghost var allFresh := folder.lazy && forall p :: p in ps ==> FreshIn(folder.cache, regions, imageFolder, p, disk.mtimes);
    PassStart(folder.cache, disk.mtimes, log0, folder.lazy, regions, imageFolder, ps, allNew, allFresh);
    for i := 0 to |ps|
      invariant folder.Valid() && disk.Valid()
      invariant PassDone(folder.cache, disk.mtimes, folder.world.renderer.log, folder.lazy, regions, imageFolder,
                         ps, i, keys0, log0, allNew, allFresh)
    {
      RenderStep(folder, disk, ps, i, keys0, log0, allNew, allFresh);
    }
    PassEnd(folder.cache, disk.mtimes, folder.world.renderer.log, folder.lazy, regions, imageFolder, ps,
            keys0, log0, allNew, allFresh);
  }

  /** Nothing is done at the start of a pass. */
  lemma PassStart(cache: map<Coord, Region>, mtimes: map<Path, int>, log: seq<Coord>, lazy: bool,
                  regions: map<Coord, Path>, imageFolder: Path, ps: seq<Coord>, allNew: bool, allFresh: bool)
    requires Renderable(cache, regions, imageFolder, mtimes, ps)
    requires allNew ==> forall p :: p in ps ==> p !in cache
    requires allFresh ==> forall p :: p in ps ==> FreshIn(cache, regions, imageFolder, p, mtimes)
    ensures PassDone(cache, mtimes, log, lazy, regions, imageFolder, ps, 0, cache.Keys, log, allNew, allFresh)
  {
    assert ps[..0] == [];
  }

  /** A finished pass has rendered every position. */
  lemma PassEnd(cache: map<Coord, Region>, mtimes: map<Path, int>, log: seq<Coord>, lazy: bool,
                regions: map<Coord, Path>, imageFolder: Path, ps: seq<Coord>,
                keys0: set<Coord>, log0: seq<Coord>, allNew: bool, allFresh: bool)
    requires PassDone(cache, mtimes, log, lazy, regions, imageFolder, ps, |ps|, keys0, log0, allNew, allFresh)
    ensures Renderable(cache, regions, imageFolder, mtimes, ps)
    ensures forall p :: p in ps ==> p in cache
    ensures lazy ==> forall p :: p in ps ==> FreshIn(cache, regions, imageFolder, p, mtimes)
    ensures !lazy || allNew ==> log == log0 + ps
    ensures allFresh ==> log == log0
  {
    assert ps[..|ps|] == ps;
  }

  /** The render of the `i`th position of a pass. */
  method RenderStep(folder: CachedRegionFolder, disk: Disk, ps: seq<Coord>, i: nat,
                    ghost keys0: set<Coord>, ghost log0: seq<Coord>, ghost allNew: bool, ghost allFresh: bool)
    requires folder.Valid() && disk.Valid() && i < |ps|
    requires allNew ==> forall p :: p in ps ==> p !in keys0
    requires allFresh ==> folder.lazy
    requires PassDone(folder.cache, disk.mtimes, folder.world.renderer.log, folder.lazy, folder.world.regions,
                      folder.imageFolder, ps, i, keys0, log0, allNew, allFresh)
    modifies folder, disk, folder.world.renderer
    ensures folder.Valid() && disk.Valid()
    ensures PassDone(folder.cache, disk.mtimes, folder.world.renderer.log, folder.lazy, folder.world.regions,
                     folder.imageFolder, ps, i + 1, keys0, log0, allNew, allFresh)
  {
    var regions, imageFolder, pos := folder.world.regions, folder.imageFolder, ps[i];
    ghost var cache, mtimes, clock, log := folder.cache, disk.mtimes, disk.clock, folder.world.renderer.log;
    PlanOf(folder, pos, mtimes);
    var r := folder.Render(pos, disk);
    if folder.lazy && FreshIn(cache, regions, imageFolder, pos, mtimes) {
      PassReuse(cache, mtimes, log, folder.lazy, regions, imageFolder, ps, i, keys0, log0, allNew, allFresh);
    } else {
      PassRedraw(cache, mtimes, clock, log, folder.lazy, regions, imageFolder, ps, i, keys0, log0, allNew, allFresh,
                 folder.cache[pos]);
    }
  }

  /**
   * Two render passes over distinct positions none of which is cached yet: a lazy folder
   * invokes the renderer once per position, an eager one twice.
   */
  method RenderTwice(folder: CachedRegionFolder, disk: Disk, ps: seq<Coord>)
    requires folder.Valid() && disk.Valid()
    requires Renderable(folder.cache, folder.world.regions, folder.imageFolder, disk.mtimes, ps)
    requires forall p :: p in ps ==> p !in folder.cache
    modifies folder, disk, folder.world.renderer
    ensures folder.lazy ==> folder.world.renderer.log == old(folder.world.renderer.log) + ps
    ensures !folder.lazy ==> folder.world.renderer.log == old(folder.world.renderer.log) + ps + ps
  {
    RenderPass(folder, disk, ps);
    RenderPass(folder, disk, ps);
  }
}
