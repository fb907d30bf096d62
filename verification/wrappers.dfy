/** Option and Result values standing in for Java's null returns and exceptions. */
module Wrappers {

  datatype Option<+T> = None | Some(value: T)

  /** The exceptions the modelled code can raise, one constructor per distinct cause. */
  datatype Failure =
    | NumberFormat(text: string)   // Integer.parseInt on a number outside 32 bits
    | MissingName                  // a manifest world without a "name" primitive
    | WorldNotFound(name: string)  // an explicit world name absent from the manifest
    | AmbiguousWorld(count: nat)   // no world name given and not exactly one world
    | MissingRegions               // a selected world without a "regions" array
    | DuplicateKey                 // Collectors.toMap meeting a key twice
    | MissingMetadata              // a local region record whose "metadata" is null
    | NoSuchFile                   // reading the modification time of a missing file
    | NoFileName                   // Path.getFileName() of a root
    | NoParent                     // Path.getParent() of a path without parent
    | MixedPaths                   // Path.relativize between absolute and relative paths
    | NoRelativePath               // Path.relativize from a base that climbs with ..
    | NullPointer                  // NullPointerException: Objects.requireNonNull, or unboxing a missing value

  datatype Result<+T> = Ok(value: T) | Err(error: Failure) {
    predicate IsFailure() { Err? }
    function PropagateFailure<U>(): Result<U>
      requires Err?
    {
      Err(error)
    }
    function Extract(): T
      requires Ok?
    {
      value
    }
  }
}
