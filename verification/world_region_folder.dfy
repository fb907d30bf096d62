/**
 * WorldRegionFolder: the live folder. It maps region positions to region files found in a
 * directory and hands every render request to the renderer, without any caching.
 */
module WorldFolders {
  import opened Wrappers
  import opened Paths
  import opened Regions
  import opened RegionNames
  import opened Indexing

  /**
   * The external RegionRenderer. What it draws is an opaque function of the position and the
   * region file; `log` lists the positions it was asked to render, in order.
   */
  class Renderer {
    const paint: (Coord, Path) -> (Image, map<ChunkPos, ChunkMetadata>)
    var log: seq<Coord>

    constructor(paint: (Coord, Path) -> (Image, map<ChunkPos, ChunkMetadata>))
      ensures this.paint == paint && log == []
    {
      this.paint := paint;
      log := [];
    }

    /** The region rendering `file` at `pos` produces. */
    function Draw(pos: Coord, file: Path): Region
    {
      BufferedRegion(pos, paint(pos, file).0, paint(pos, file).1)
    }

    method Render(pos: Coord, file: Path) returns (r: Region)
      modifies this
      ensures log == old(log) + [pos]
      ensures r == Draw(pos, file)
    {
      log := log + [pos];
      r := Draw(pos, file);
    }
  }

  /**
   * How load treats one directory entry: by its file name, skipped unless it matches the
   * region file pattern; a matching name whose numbers do not fit in 32 bits fails.
   */
  function ClassifyEntry(p: Path): Result<Option<Coord>>
  {
    match FileName(p)
    case None => Err(NoFileName)
    case Some(name) => ClassifyName(name)
  }

  /** The position to file map load builds from a directory listing, in listing order. */
  function RegionIndex(entries: seq<Path>): Result<map<Coord, Path>>
  {
    PutAll(entries, ClassifyEntry)
  }

  /** Entry i is a region file of `pos` and no later entry is one. */
  ghost predicate ListedLast(entries: seq<Path>, i: int, pos: Coord)
    requires 0 <= i < |entries|
  {
    && ClassifyEntry(entries[i]) == Ok(Some(pos))
    && forall j :: i < j < |entries| ==> ClassifyEntry(entries[j]) != Ok(Some(pos))
  }

  /**
   * load fails exactly when some entry fails (a matching name with a number outside 32 bits).
   * Otherwise its positions are exactly those of the matching entries, non-matching entries
   * are ignored, and two names denoting the same position (such as `r.1.0.mca` and
   * `r.01.0.mca`) leave the one listed last.
   */
  lemma {:induction false} RegionIndexSpec(entries: seq<Path>)
    ensures RegionIndex(entries).Err? <==> exists i :: 0 <= i < |entries| && ClassifyEntry(entries[i]).Err?
    ensures RegionIndex(entries).Ok? ==> forall pos :: pos in RegionIndex(entries).value <==>
      exists i :: 0 <= i < |entries| && ClassifyEntry(entries[i]) == Ok(Some(pos))
    ensures RegionIndex(entries).Ok? ==> forall pos :: pos in RegionIndex(entries).value ==>
      exists i :: 0 <= i < |entries| && ListedLast(entries, i, pos) && RegionIndex(entries).value[pos] == entries[i]
  {
    PutAllFails(entries, ClassifyEntry);
    if RegionIndex(entries).Ok? {
      RegionIndexContents(entries, RegionIndex(entries).value);
    }
  }

  /** The contents half of RegionIndexSpec, for a listing that loads. */
  lemma RegionIndexContents(entries: seq<Path>, m: map<Coord, Path>)
    requires RegionIndex(entries) == Ok(m)
    ensures forall pos :: pos in m <==> exists i :: 0 <= i < |entries| && ClassifyEntry(entries[i]) == Ok(Some(pos))
    ensures forall pos :: pos in m ==> exists i :: 0 <= i < |entries| && ListedLast(entries, i, pos) && m[pos] == entries[i]
  {
    assert PutAll(entries, ClassifyEntry) == Ok(m);
    PutAllContents(entries, ClassifyEntry);
    StoredAtClassified(entries);
    forall pos | pos in m ensures exists i :: 0 <= i < |entries| && ClassifyEntry(entries[i]) == Ok(Some(pos)) {
      var i :| 0 <= i < |entries| && StoredAt(entries, ClassifyEntry, i, pos);
      assert ClassifyEntry(entries[i]) == Ok(Some(pos));
    }
    forall pos, i | 0 <= i < |entries| && ClassifyEntry(entries[i]) == Ok(Some(pos)) ensures pos in m {
      assert StoredAt(entries, ClassifyEntry, i, pos);
    }
    forall pos | pos in m
      ensures exists i :: 0 <= i < |entries| && ListedLast(entries, i, pos) && m[pos] == entries[i]
    {
      var i :| 0 <= i < |entries| && StoredAt(entries, ClassifyEntry, i, pos) && m[pos] == entries[i]
        && forall j :: i < j < |entries| ==> !StoredAt(entries, ClassifyEntry, j, pos);
      forall j | i < j < |entries| ensures ClassifyEntry(entries[j]) != Ok(Some(pos)) {
        assert !StoredAt(entries, ClassifyEntry, j, pos);
      }
      assert ListedLast(entries, i, pos);
    }
  }

  /** Being stored by the put-loop of load means being classified as that position. */
  lemma StoredAtClassified(entries: seq<Path>)
    ensures forall i, pos :: 0 <= i < |entries| ==>
      (StoredAt(entries, ClassifyEntry, i, pos) <==> ClassifyEntry(entries[i]) == Ok(Some(pos)))
  {
  }

  /** A region file with the canonical name of a position is found at that position. */
  lemma CanonicalEntryIsTaken(dir: Path, pos: Coord)
    ensures ClassifyEntry(Resolve(dir, RegionFileName(pos))) == Ok(Some(pos))
  {
    RegionFileNameRoundTrip(pos);
  }

  class WorldRegionFolder {
    const regions: map<Coord, Path>
    const renderer: Renderer
    var pins: Option<WorldPins>

    constructor(files: map<Coord, Path>, renderer: Renderer)
      ensures regions == files && this.renderer == renderer && pins == None
    {
      regions := files;
      this.renderer := renderer;
      pins := None;
    }

    /** getPath(pos): the region file at `pos`, absent when there is none. */
    function GetPath(pos: Coord): Option<Path>
    {
      if pos in regions then Some(regions[pos]) else None
    }

    /** listRegions(): exactly the positions that have a region file. */
    function ListRegions(): (r: set<Coord>)
      ensures forall pos :: pos in r <==> GetPath(pos).Some?
    {
      regions.Keys
    }

    /**
     * render(pos): null for a position without a region file; otherwise the renderer is
     * invoked once, on every call.
     */
    method Render(pos: Coord) returns (r: Option<Region>)
      modifies renderer
      ensures pos !in ListRegions() ==> r == None && renderer.log == old(renderer.log)
      ensures pos in ListRegions() ==>
        && renderer.log == old(renderer.log) + [pos]
        && r == Some(renderer.Draw(pos, regions[pos]))
    {
      if pos in regions {
        var rendered := renderer.Render(pos, regions[pos]);
        r := Some(rendered);
      } else {
        r := None;
      }
    }

    function GetPins(): Option<WorldPins>
      reads this
    {
      pins
    }

    method SetPins(pins: Option<WorldPins>)
      modifies this
      ensures this.pins == pins
    {
      this.pins := pins;
    }

    /**
     * load(regionFolder, renderer) over the folder's directory listing `entries`: every entry
     * whose file name matches the region file pattern is taken at the position it names.
     */
    static method Load(entries: seq<Path>, renderer: Renderer) returns (r: Result<WorldRegionFolder>)
      ensures r.Ok? <==> RegionIndex(entries).Ok?
      ensures r.Err? ==> r.error == RegionIndex(entries).error
      ensures r.Ok? ==>
        && fresh(r.value) && r.value.regions == RegionIndex(entries).value
        && r.value.renderer == renderer && r.value.pins == None
    {
      var files: map<Coord, Path> := map[];
      for i := 0 to |entries|
        invariant PutAll(entries[..i], ClassifyEntry) == Ok(files)
      {
        var p := entries[i];
        assert entries[..i + 1][..i] == entries[..i];
        var kind := ClassifyEntry(p);
        if kind.Err? {
          PutAllStopsAt(entries, ClassifyEntry, i);
          return Err(kind.error);
        }
        if kind.value.Some? {
          files := files[kind.value.value := p];
        }
      }
      assert entries[..|entries|] == entries;
      var folder := new WorldRegionFolder(files, renderer);
      return Ok(folder);
    }
  }
}
