# BlockMap region folders in Dafny

BlockMap renders Minecraft worlds to map tiles. One tile corresponds to one region file
`r.<x>.<z>.mca`. A `RegionFolder` maps region positions to rendered regions and offers
`listRegions`, `render` and `getPins`. This project models that lookup and caching layer and
its four backends. It also models the small `BlockState` lookup table used by the renderer.

- **WorldRegionFolder** (module `WorldFolders`)
  - `load` scans a directory listing and takes each entry whose file name matches
    `^r\.(-?\d+)\.(-?\d+)\.mca$`, at the position its two numbers denote. A number outside
    32 bits makes `load` fail.
  - `render` hands every request to the external renderer and caches nothing.
- **SavedRegionFolder, LocalRegionFolder, RemoteRegionFolder** (modules `Manifests` and `SavedFolders`)
  - `parseSaved` reads a save file, either one world object or an array of them, into a map
    from world name to world.
  - The file constructor selects one world. It then collects that world's region records into
    an immutable position map, and `render` looks positions up in it.
  - `getRegion` builds one region from one record. The local variant resolves the image
    reference with `Path.resolveSibling` and builds a `LocalSavedRegion`. The remote one
    resolves it with `URI.resolve` and builds a plain `SavedRegion`. In this model both are
    the same `SavedRegion` value at a `Path`, so the two differ only in how they treat a
    missing metadata list.
- **CachedRegionFolder** (module `CachedFolders`)
  - It wraps a world folder. Each rendered region is written as an image file and kept in a
    mutable cache.
  - A lazy folder answers a repeated render from the cache while the image is strictly newer
    than the region file.
  - `save()` turns the cache into a local saved folder.
  - `save(file, name, relativePaths)` writes a save file that keeps the file's other worlds
    and appends this one.
- **BlockState** (module `BlockStates`): a two-level map from property name and value to a number.

Shared pieces:
- `Indexing` defines the two list-to-map idioms the code uses: a loop of `HashMap.put`, where
  the last write wins, and `Collectors.toMap`, which fails on a repeated key.
- `RegionNames` holds the file-name pattern, `Integer.parseInt` and the `.mca` to `.png`
  renaming.
- `Paths` holds the `java.nio.file.Path` operations involved.

The state the source changes in place is modelled with classes:
- `Renderer.log` records every position the renderer was asked for.
- `WorldRegionFolder.pins` holds the world's pins.
- `CachedRegionFolder.cache` holds the cached regions.
- `Disk` holds the last-modified time of every file and a clock that stamps each write.

The main results are:
- the region-name parser accepts exactly the canonical names and round-trips positions
  (`RegionFileNameRoundTrip`);
- a world written by `save(file, name, relativePaths)` reads back through
  `LocalRegionFolder(file, name)` as exactly the cached regions (`SaveThenOpen`, and
  `SavedCacheReadsBack` for a valid folder whose image references resolve);
- a lazy cached folder invokes the renderer once per position over two passes, an eager one
  twice (`RenderTwice`).

## Model

| member | source | states |
|---|---|---|
| Paths.FileName | BlockMap-core/src/main/java/de/piegames/blockmap/world/RegionFolder.java:386 | `getFileName` is absent only for a root; Java's empty path has the empty name, and any other path its last element |
| Paths.Parent | BlockMap-core/src/main/java/de/piegames/blockmap/world/RegionFolder.java:462 | `getParent` is absent for the root, the empty path and a one-element relative path; otherwise appending the last element to it gives back the path |
| Paths.Resolve | BlockMap-core/src/main/java/de/piegames/blockmap/world/RegionFolder.java:386 | resolving a non-empty file name gives a path with that file name, whose parent is the folder, or none when the folder is the empty path; resolving the empty name gives the folder itself |
| Paths.ResolveSibling | BlockMap-core/src/main/java/de/piegames/blockmap/world/RegionFolder.java:312 | an absolute reference, or any reference against a path without a parent, is returned as is; a one-element relative reference becomes a sibling: same parent, the reference's file name |
| Paths.Relativize | BlockMap-core/src/main/java/de/piegames/blockmap/world/RegionFolder.java:462 | `relativize` succeeds exactly when both paths are absolute or both relative and the base holds no `..` below their common prefix; otherwise it raises IllegalArgumentException, for mixed paths or for a base it cannot lead out of. The result is always relative; equal paths give the empty path, and a target under the base gives exactly its names below the base |
| Paths.ResolveThenRelativize | BlockMap-core/src/main/java/de/piegames/blockmap/world/RegionFolder.java:462 | relativizing a path resolved against a base gives back the relative path that was resolved |
| Paths.CommonPrefix | BlockMap-core/src/main/java/de/piegames/blockmap/world/RegionFolder.java:462 | the longest shared leading part of two name lists: shared, and not extendable |
| Paths.Ups | BlockMap-core/src/main/java/de/piegames/blockmap/world/RegionFolder.java:462 | the `..` elements relativize emits, exactly `count` of them |
| Paths.UpwardBaseFails | BlockMap-core/src/main/java/de/piegames/blockmap/world/RegionFolder.java:462 | a base that holds `..` cannot be relativized against a target that holds none: a save file under `..` cannot reference an image folder that is not |
| Paths.RelativizeThenResolveSibling | BlockMap-core/src/main/java/de/piegames/blockmap/world/RegionFolder.java:462 | an image under the save file's directory, relativized against that directory and resolved as a sibling of the save file, gives back the image path |
| BlockStates.NewBlockStateQueries | BlockMap-core/src/main/java/de/piegames/blockmap/renderer/BlockState.java:16-26 | a null map fails with NullPointerException; a block state built from a map has as many properties as the map has keys, and `getProperty(key, value)` gives the map's number exactly when both are present in it and fails otherwise |
| BlockStates.GetProperty | BlockMap-core/src/main/java/de/piegames/blockmap/renderer/BlockState.java:20-22 | the lookup succeeds exactly when both the key and the value under it are present, and then gives the stored number; a missing key or value fails to unbox null |
| BlockStates.GetSize | BlockMap-core/src/main/java/de/piegames/blockmap/renderer/BlockState.java:24-26 | the number of property names; with none, every `getProperty` fails |
| RegionNames.ParseInt | BlockMap-core/src/main/java/de/piegames/blockmap/world/RegionFolder.java:175 | `Integer.parseInt` on a `-?\d+` group succeeds exactly when the denoted value fits in 32 bits, gives that value, and otherwise raises NumberFormatException on that text |
| RegionNames.MatchRegionName | BlockMap-core/src/main/java/de/piegames/blockmap/world/RegionFolder.java:92 | a name the pattern accepts is `r.` + group + `.` + group + `.mca`, with two `-?\d+` groups |
| RegionNames.MatchRegionNameComplete | BlockMap-core/src/main/java/de/piegames/blockmap/world/RegionFolder.java:92 | conversely, every such name is accepted, with exactly those two groups |
| RegionNames.ClassifyName | BlockMap-core/src/main/java/de/piegames/blockmap/world/RegionFolder.java:173-175 | a name that does not match is skipped, and only a matching name can fail |
| RegionNames.ClassifyNameSpec | BlockMap-core/src/main/java/de/piegames/blockmap/world/RegionFolder.java:173-175 | a matching name is taken exactly when both numbers fit in 32 bits, at x = first number and z = second; an oversized first number reports its own text |
| RegionNames.Decimal | BlockMap-core/src/main/java/de/piegames/blockmap/world/RegionFolder.java:175 | the decimal digits of a natural number form a `\d+` group |
| RegionNames.DecimalValue | BlockMap-core/src/main/java/de/piegames/blockmap/world/RegionFolder.java:175 | reading the decimal digits of a number back gives the number |
| RegionNames.Show | BlockMap-core/src/main/java/de/piegames/blockmap/world/RegionFolder.java:175 | the decimal form of any integer is a `-?\d+` group |
| RegionNames.ShowValue | BlockMap-core/src/main/java/de/piegames/blockmap/world/RegionFolder.java:175 | reading the decimal form of an integer back gives the integer |
| RegionNames.RegionFileNameRoundTrip | BlockMap-core/src/main/java/de/piegames/blockmap/world/RegionFolder.java:170-178 | the canonical file name of any position is taken by load at that position |
| RegionNames.IndexOf | BlockMap-core/src/main/java/de/piegames/blockmap/world/RegionFolder.java:92 | the first occurrence of a character, absent exactly when the character does not occur |
| RegionNames.ReplaceMcaSkips | BlockMap-core/src/main/java/de/piegames/blockmap/world/RegionFolder.java:386 | `replace(".mca", ".png")` copies a dot-free prefix unchanged |
| RegionNames.ReplaceMcaShape | BlockMap-core/src/main/java/de/piegames/blockmap/world/RegionFolder.java:386 | `replace(".mca", ".png")` keeps the length and the first character of a name |
| RegionNames.ReplacedMcaPrefix | BlockMap-core/src/main/java/de/piegames/blockmap/world/RegionFolder.java:386 | a dot in front of a renamed text begins `.mca` only where it already did before the renaming |
| RegionNames.ReplaceMcaIdempotent | BlockMap-core/src/main/java/de/piegames/blockmap/world/RegionFolder.java:386 | renaming twice is renaming once: a renamed name contains no `.mca` that a second `replace` would change |
| RegionNames.ReplaceMcaInRegionName | BlockMap-core/src/main/java/de/piegames/blockmap/world/RegionFolder.java:386 | the renaming copies the `r.<x>.<z>` part of a region name unchanged |
| RegionNames.ImageNameOfRegionName | BlockMap-core/src/main/java/de/piegames/blockmap/world/RegionFolder.java:365-366 | the image of `r.<x>.<z>.mca` is named `r.<x>.<z>.png`, and renaming an image name changes nothing |
| Indexing.PutAllFails | BlockMap-core/src/main/java/de/piegames/blockmap/world/RegionFolder.java:172-176 | a put-loop fails exactly when some item fails, and it reports the first failing item's error |
| Indexing.PutAllContents | BlockMap-core/src/main/java/de/piegames/blockmap/world/RegionFolder.java:172-176 | a successful put-loop holds exactly the keys of the stored items, each with the last item stored under it |
| Indexing.PutAllStopsAt | BlockMap-core/src/main/java/de/piegames/blockmap/world/RegionFolder.java:172-176 | when item i is the first to fail, the loop ends with item i's failure |
| Indexing.CollectSpec | BlockMap-core/src/main/java/de/piegames/blockmap/world/RegionFolder.java:228-229 | `Collectors.toMap` succeeds exactly when every value is computed and no key repeats; it then maps each item's key, and nothing else, to that item's value |
| Indexing.CollectSucceeds | BlockMap-core/src/main/java/de/piegames/blockmap/world/RegionFolder.java:228-229 | the success half of CollectSpec |
| Indexing.CollectContents | BlockMap-core/src/main/java/de/piegames/blockmap/world/RegionFolder.java:228-229 | the contents half of CollectSpec |
| Indexing.Enumerate | BlockMap-core/src/main/java/de/piegames/blockmap/world/RegionFolder.java:452 | iterating over a HashMap visits every key exactly once |
| Manifests.SavedWorldsSpec | BlockMap-core/src/main/java/de/piegames/blockmap/world/RegionFolder.java:274-286 | parseSaved succeeds exactly when every world has a name; its keys are exactly those names, each world is filed under its own name, and a repeated name holds the last world carrying it |
| Manifests.SavedWorldsBare | BlockMap-core/src/main/java/de/piegames/blockmap/world/RegionFolder.java:281-284 | a bare world object yields a one-entry map under its name |
| Manifests.ParseSaved | BlockMap-core/src/main/java/de/piegames/blockmap/world/RegionFolder.java:274-286 | the loop over the array computes the put-loop map, failing on the first world without a name |
| WorldFolders.RegionIndexSpec | BlockMap-core/src/main/java/de/piegames/blockmap/world/RegionFolder.java:170-178 | load fails exactly when some matching entry has an oversized number; otherwise its positions are exactly those of the matching entries, each holding the last entry listed for it |
| WorldFolders.CanonicalEntryIsTaken | BlockMap-core/src/main/java/de/piegames/blockmap/world/RegionFolder.java:173-175 | a directory entry with the canonical name of a position is taken at that position |
| WorldFolders.Renderer.Render | BlockMap-core/src/main/java/de/piegames/blockmap/world/RegionFolder.java:124 | the renderer records one call and returns its drawing of the region file |
| WorldFolders.WorldRegionFolder.constructor | BlockMap-core/src/main/java/de/piegames/blockmap/world/RegionFolder.java:111-114 | the folder holds the given file map and renderer, and no pins |
| WorldFolders.WorldRegionFolder.ListRegions | BlockMap-core/src/main/java/de/piegames/blockmap/world/RegionFolder.java:117-119 | the listed positions are exactly those with a region file |
| WorldFolders.WorldRegionFolder.Render | BlockMap-core/src/main/java/de/piegames/blockmap/world/RegionFolder.java:122-127 | null without a renderer call for an unlisted position; otherwise one renderer call per render, returning the drawing of that position's file |
| WorldFolders.WorldRegionFolder.SetPins | BlockMap-core/src/main/java/de/piegames/blockmap/world/RegionFolder.java:138-140 | the folder then holds the given pins |
| WorldFolders.WorldRegionFolder.Load | BlockMap-core/src/main/java/de/piegames/blockmap/world/RegionFolder.java:170-178 | the loop over the listing succeeds exactly when the index does, reports its failure, and otherwise yields a new folder over that index with no pins |
| SavedFolders.SavedRegionFolder.Render | BlockMap-core/src/main/java/de/piegames/blockmap/world/RegionFolder.java:232-235 | null exactly for an unlisted position, the stored region otherwise |
| SavedFolders.SelectWorld | BlockMap-core/src/main/java/de/piegames/blockmap/world/RegionFolder.java:219-226 | with a name, the named world, or WorldNotFound when it is absent; without a name, the only world, or AmbiguousWorld when the file does not hold exactly one |
| SavedFolders.GetRegion | BlockMap-core/src/main/java/de/piegames/blockmap/world/RegionFolder.java:308-343 | a saved region at the record's position, located at the image reference resolved as a sibling of the save file; a null metadata list fails locally and is empty remotely; otherwise the metadata collects only without a repeated chunk position, and then holds exactly the listed chunks, each under its own position |
| SavedFolders.Open | BlockMap-core/src/main/java/de/piegames/blockmap/world/RegionFolder.java:215-230 | the file constructor: parse, select a world, require its regions array, collect the records |
| SavedFolders.LoadRegionsSpec | BlockMap-core/src/main/java/de/piegames/blockmap/world/RegionFolder.java:228-229 | a saved folder loads exactly when every record can be read and no position repeats; it then lists exactly the records' positions and renders each as the region built from its record |
| SavedFolders.TwoWorldsNeedAName | BlockMap-core/src/main/java/de/piegames/blockmap/world/RegionFolder.java:219-226 | a file with two named worlds fails without a name, and opened by one world's name yields that world |
| CachedFolders.Disk.Write | BlockMap-core/src/main/java/de/piegames/blockmap/world/RegionFolder.java:392 | writing a file stamps it with the clock, keeps every time in the past, and leaves other files' times unchanged |
| CachedFolders.ImageFile | BlockMap-core/src/main/java/de/piegames/blockmap/world/RegionFolder.java:386 | the image file exists exactly for a region path with a file name; it is named with `.mca` replaced by `.png` and lies in the image folder (without a parent when that folder is the empty path); the empty path, whose name is empty, resolves to the image folder itself |
| CachedFolders.ImageFileIdempotent | BlockMap-core/src/main/java/de/piegames/blockmap/world/RegionFolder.java:386 | for a region path with a non-empty file name, the image file of its image file is that image file itself |
| CachedFolders.CanonicalImageFile | BlockMap-core/src/main/java/de/piegames/blockmap/world/RegionFolder.java:386 | the region file `r.<x>.<z>.mca` of a position has the image `r.<x>.<z>.png` in the image folder |
| CachedFolders.Reusable | BlockMap-core/src/main/java/de/piegames/blockmap/world/RegionFolder.java:387-388 | the cache is used exactly for a cached position of a lazy folder whose image is strictly newer than its region file; the file times are read only in that case, and a missing file fails |
| CachedFolders.WriteImageThenRegion | BlockMap-core/src/main/java/de/piegames/blockmap/world/RegionFolder.java:374-377 | a freshly written image is reusable, and becomes stale once its region file is written again |
| CachedFolders.ImageRef | BlockMap-core/src/main/java/de/piegames/blockmap/world/RegionFolder.java:460-463 | the image reference written for a cached region: its image file, made relative to the save file's directory when asked, which fails exactly when there is no parent, or the directory and the image are not both absolute or both relative, or the directory holds `..` below their common prefix |
| CachedFolders.ImageRefResolves | BlockMap-core/src/main/java/de/piegames/blockmap/world/RegionFolder.java:460-463 | a written image reference, resolved as a sibling of the save file, names the image file |
| CachedFolders.MetadataList | BlockMap-core/src/main/java/de/piegames/blockmap/world/RegionFolder.java:466 | the metadata map's values are written as a list holding each value once |
| CachedFolders.ListedMetadata | BlockMap-core/src/main/java/de/piegames/blockmap/world/RegionFolder.java:466 | the values of a metadata map keyed by chunk position, written as a list, collect back into that same map |
| CachedFolders.CachedRegionFolder.constructor | BlockMap-core/src/main/java/de/piegames/blockmap/world/RegionFolder.java:368-372 | a new folder has an empty cache and satisfies the cache invariant |
| CachedFolders.CachedRegionFolder.Render | BlockMap-core/src/main/java/de/piegames/blockmap/world/RegionFolder.java:382-395 | null and no change without a region file; the cached region and no change on a cache hit; otherwise one renderer call, the image written, and only that position's cache entry replaced; the cache invariant is kept |
| CachedFolders.CachedRegionFolder.ListRegions | BlockMap-core/src/main/java/de/piegames/blockmap/world/RegionFolder.java:398-400 | the listed positions are exactly the world's, rendered or not |
| CachedFolders.CachedRegionFolder.Save | BlockMap-core/src/main/java/de/piegames/blockmap/world/RegionFolder.java:416-418 | the saved folder lists exactly the cached positions, renders each as its cached region, and has the world's pins |
| CachedFolders.CachedRegionFolder.SaveManifest | BlockMap-core/src/main/java/de/piegames/blockmap/world/RegionFolder.java:436-476 | an unreadable prior file fails; otherwise the write fails exactly when some cached image reference cannot be written; the written file holds the other worlds and then the new one, bare when the file held none |
| CachedFolders.WriteRecords | BlockMap-core/src/main/java/de/piegames/blockmap/world/RegionFolder.java:452-469 | one record per cache entry in iteration order, failing exactly when some image reference fails |
| CachedFolders.Merge | BlockMap-core/src/main/java/de/piegames/blockmap/world/RegionFolder.java:441-447 | the written file is bare exactly when the file held no world, and the new world is last |
| CachedFolders.MergeIsSaved | BlockMap-core/src/main/java/de/piegames/blockmap/world/RegionFolder.java:441-473 | the kept worlds followed by the new world have the shape save promises |
| CachedFolders.KeepOthers | BlockMap-core/src/main/java/de/piegames/blockmap/world/RegionFolder.java:443-445 | every prior world not named `name` is kept, once, and nothing else |
| CachedFolders.Filtered | BlockMap-core/src/main/java/de/piegames/blockmap/world/RegionFolder.java:443-445 | the filtering loop's result holds exactly the other worlds, each once |
| CachedFolders.SaveThenOpen | BlockMap-core/src/main/java/de/piegames/blockmap/world/RegionFolder.java:436-476 | a saved world reads back through LocalRegionFolder(file, name) with exactly the cached positions, no pins, and every cached region's metadata and resolved image reference |
| CachedFolders.SavedCacheReadsBack | BlockMap-core/src/main/java/de/piegames/blockmap/world/RegionFolder.java:436-476 | a valid cached folder whose region files all have a non-empty name, saved with resolvable image references (relative ones under the save file's directory, or an absolute image folder) reads back through LocalRegionFolder(file, name) as exactly its cache: the same positions, and each position's cached region with the same location and metadata |
| CachedFolders.LastNameWins | BlockMap-core/src/main/java/de/piegames/blockmap/world/RegionFolder.java:219-221 | a name carried only by the last world of a file selects that world |
| CachedFolders.CachedRecordsLoad | BlockMap-core/src/main/java/de/piegames/blockmap/world/RegionFolder.java:228-229 | the records written for the cache load as a folder of exactly the cached positions |
| CachedFolders.EntryLoads | BlockMap-core/src/main/java/de/piegames/blockmap/world/RegionFolder.java:308-314 | one written record loads back as its cached region's position, image and metadata |
| CachedFolders.RecordsListed | BlockMap-core/src/main/java/de/piegames/blockmap/world/RegionFolder.java:452 | records written in the cache's iteration order have exactly the cache's positions |
| CachedFolders.WriteKeepsReusable | BlockMap-core/src/main/java/de/piegames/blockmap/world/RegionFolder.java:387-388 | writing any file other than the region file keeps a fresh image fresh |
| CachedFolders.PlanOf | BlockMap-core/src/main/java/de/piegames/blockmap/world/RegionFolder.java:382-395 | for a position with an existing region file, render reuses the cache exactly when the folder is lazy and the image is fresh |
| CachedFolders.AfterRedraw | BlockMap-core/src/main/java/de/piegames/blockmap/world/RegionFolder.java:391-392 | a redraw makes its position fresh and keeps every fresh position fresh |
| CachedFolders.RenderPass | BlockMap-core/src/main/java/de/piegames/blockmap/world/RegionFolder.java:357-363 | after rendering each position once, all are cached, and fresh when lazy; an eager folder, and a lazy one with none of them cached, calls the renderer once for each; a lazy one calls it not at all when all were fresh |
| CachedFolders.RenderTwice | BlockMap-core/src/main/java/de/piegames/blockmap/world/RegionFolder.java:357-363 | two passes over uncached positions call the renderer once per position when lazy and twice when eager |

## Left out

- JSON text, Gson and its type selectors are not modelled. A save file is a `ManifestFile` value holding only the fields the folders read. The optional fields are the world's name, pins and regions and a region's metadata list; each is `None` when missing or null. A region's `x`, `z` and `image` are always present: Gson's default of 0 for a missing coordinate and the NullPointerException of a missing image are not modelled. Chunk metadata is an opaque value keyed by chunk position.
- The real file system is not modelled:
  - The directory listing is a `seq<Path>` given to `Load`.
  - File contents are parameters: the parsed save file is given to `Open` and `SaveManifest`.
  - Last-modified times live in `Disk`.
  - I/O errors other than a missing file's time (NoSuchFileException) are not modelled.
  - When a write fails midway, the truncated file that `save(file, name, relativePaths)` leaves behind is not modelled.
- Pixel rendering, `RegionFile` decoding, PNG writing and `WorldPins.loadFromWorld` are not modelled. The renderer is an opaque function with a call log, and `BufferedRegion.save` is `SaveTo`, which cannot fail here.
- The `load(world, dimension, renderer[, loadPins])` overloads are not modelled; they only resolve a dimension's folder and load pins from disk.
- `Path.normalize` is not modelled: paths are taken as already normalised, with no empty name elements (Java's empty path is the relative path without names).
- Paths.Relativize: when the base is not a prefix of the target, a successful result is only stated to be relative (a run of `..` elements followed by the rest of the target); its value is not stated, because Java normalises such paths and `normalize` is not modelled. Inputs are taken as normalised, so `..` can only lead a relative path.
- URIs are modelled as paths. `URI.resolve` of a relative reference is modelled as `resolveSibling`, without dot-segment removal.
- `getInputStream` of both saved variants is not modelled, because reading the stream is I/O.
- `getWorldRegionFolder` and `getPath` are plain field reads, so neither has a contract.
- `CachedRegionFolder.getPins` and `SavedRegionFolder.getPins`/`listRegions` are plain field reads. They are stated through `Save` and `LoadRegionsSpec`.
- `save(file, name)` only passes `relativePaths = true` on to the three-argument form, so it is not modelled separately.
- Null arguments are not modelled: paths, names, renderers and the maps inside a BlockState are never null here. The exceptions are the BlockState constructor's argument and the nullable fields of a save file.
- Concurrent use of a CachedRegionFolder is not modelled: the class is not synchronized.
- CachedFolders.SaveThenOpen: the round trip is stated for chunk metadata whose keys are the chunks' own positions, as the renderer produces them. For any other map, reading back fails with a duplicate key when two values share a position, and otherwise files each value under its own position.
- CachedFolders.SavedCacheReadsBack: stated, like `SaveThenOpen`, for well-keyed chunk metadata and for image references that resolve. It also assumes that no region file is the empty path: that one resolves to the image folder itself, so its image reference names a different file. See below for a relative image folder saved with absolute references.
- CachedFolders.CachedRegionFolder.Save: returns a value snapshot of the cache. The source wraps the live cache in `Collections.unmodifiableMap`, so regions rendered after `save()` also appear in the returned folder there, but not here.
- CachedFolders.RenderPass: `Disk` idealises file times. Every write is stamped strictly later than every recorded time, and no file is dated in the future or shares its time with another file. A coarse file-system clock, which gives an image and a region written in the same tick equal times, is not modelled. The same idealisation underlies `CachedFolders.RenderTwice`, `CachedFolders.WriteImageThenRegion`, `CachedFolders.WriteKeepsReusable` and `CachedFolders.AfterRedraw`.
- CachedFolders.RenderPass: the pass is stated for distinct positions whose region files exist and are none of the image files. The model has no other file writes between renders.

## Where the documentation and the code differ

- The documentation of `save()` (RegionFolder.java:412-415) says the returned folder knows every listed region, rendered or not. The code (line 417) passes only the cache. The model follows the code, and `CachedRegionFolder.Save` lists exactly the cached positions at the time of the call.
- The documentation of `save(file, name, relativePaths)` says it saves the paths of files "that have yet to be rendered" too. The code writes one record per cache entry, which the model follows.
- `save(file, name, relativePaths)` never writes pins, so a world read back through the saved folder has none (`SaveThenOpen`).
- With `relativePaths` false and a relative image folder, `save(file, name, relativePaths)` writes the image path relative to the working directory (line 463), while `LocalRegionFolder` resolves it as a sibling of the save file (line 312). The reference then names the intended image only when the save file lies in the working directory. `ImageRefResolves` and `SavedCacheReadsBack` state the read-back for an absolute image folder only.
