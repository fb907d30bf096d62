/** The values the folders hand out: coordinates and rendered or saved regions. */
module Regions {
  import opened Paths

  /** A Java int. */
  type Int32 = x: int | -0x8000_0000 <= x < 0x8000_0000

  /** A region position (org.joml.Vector2i); `z` is the vector's y component. */
  datatype Coord = Coord(x: Int32, z: Int32)

  /** A chunk position inside a region. */
  datatype ChunkPos = ChunkPos(x: int, z: int)

  /** Per-chunk render information; its contents belong to the renderer and stay opaque. */
  datatype ChunkMetadata = ChunkMetadata(position: ChunkPos, renderState: string)

  /** Pixel data of a rendered region, opaque here. */
  datatype Image = Image(pixels: seq<int>)

  /** The pins of a world, opaque here. */
  datatype WorldPins = WorldPins(markers: seq<string>)

  /**
   * Region.BufferedRegion holds a freshly rendered image in memory; Region.SavedRegion
   * (and its local variant) refers to an image stored elsewhere, by path or by URI.
   */
  datatype Region =
    | BufferedRegion(position: Coord, image: Image, metadata: map<ChunkPos, ChunkMetadata>)
    | SavedRegion(position: Coord, location: Path, metadata: map<ChunkPos, ChunkMetadata>)

  /** BufferedRegion.save(path): the saved form of a rendered region, pointing at `file`. */
  function SaveTo(rendered: Region, file: Path): Region
  {
    SavedRegion(rendered.position, file, rendered.metadata)
  }
}
