/**
 * BlockState: an immutable two-level map from property name to property value to the
 * number the renderer assigns to that value.
 */
module BlockStates {
  import opened Wrappers
  import opened Regions

  datatype BlockState = BlockState(states: map<string, map<string, Int32>>)

  /** The public constructor: a null map is refused by Objects.requireNonNull. */
  function NewBlockState(states: Option<map<string, map<string, Int32>>>): (r: Result<BlockState>)
    ensures r.Ok? <==> states.Some?
    ensures r.Ok? ==> r.value.states == states.value
    ensures r.Err? ==> r.error == NullPointer
  {
    match states
    case None => Err(NullPointer)
    case Some(m) => Ok(BlockState(m))
  }

  /**
   * getProperty(key, value): a missing key yields an empty inner map, and a missing value
   * under it is a null Integer that fails to unbox.
   */
  function GetProperty(b: BlockState, key: string, value: string): (r: Result<Int32>)
    ensures r.Ok? <==> key in b.states && value in b.states[key]
    ensures r.Ok? ==> r.value == b.states[key][value]
    ensures r.Err? ==> r.error == NullPointer
  {
    var inner := if key in b.states then b.states[key] else map[];
    if value in inner then Ok(inner[value]) else Err(NullPointer)
  }

  /** getSize(): the number of property names; with none, every lookup fails. */
  function GetSize(b: BlockState): (n: nat)
    ensures n == |b.states.Keys|
    ensures n == 0 ==> forall key, value :: GetProperty(b, key, value).Err?
  {
    |b.states|
  }

  /**
   * A block state built from a map answers every lookup from that map: a present property and
   * value give the stored number, anything else fails, and the size is the number of
   * property names. A null map builds nothing.
   */
  lemma NewBlockStateQueries(states: map<string, map<string, Int32>>)
    ensures NewBlockState(None) == Err(NullPointer)
    ensures NewBlockState(Some(states)).Ok?
    ensures var b := NewBlockState(Some(states)).value;
      && GetSize(b) == |states|
      && forall key, value :: GetProperty(b, key, value) ==
           if key in states && value in states[key] then Ok(states[key][value]) else Err(NullPointer)
  {
  }
}
