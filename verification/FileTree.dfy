/** The abstract file system every walk reads, and the entries the walks yield. */
module FileTree {
  import opened Wrappers

  type Path = seq<string>

  datatype SkipReason = MaxDepth | FileSystemBoundary | PathEscape | SymlinkLoop

  datatype WalkOperation = ReadDirectory | ReadEntry | ReadMetadata | ScheduleWorker

  /** `stdout` marks a regular file that is the redirected standard output. */
  datatype WalkEntry = WalkEntry(
    path: Path,
    depth: nat,
    isFile: bool,
    isDirectory: bool,
    isSymlink: bool,
    stdout: bool,
    skip: Option<SkipReason>)

  datatype WalkError = WalkError(path: Path, depth: nat, operation: WalkOperation)

  type WalkItem = Result<WalkEntry, WalkError>

  datatype ErrorPolicy = Continue | Abort

  datatype WalkOptions = WalkOptions(minDepth: nat, maxDepth: Option<nat>, maxOpen: nat, errorPolicy: ErrorPolicy)

  /** Why a directory must not be entered whatever the depth. */
  datatype Boundary = OtherFileSystem | OutsideRoot

  /** A finite tree of files; a directory that is not `readable` cannot be opened. */
  datatype Tree =
    | File(stdout: bool)
    | Symlink
    | Directory(boundary: Option<Boundary>, readable: bool, listing: seq<Dirent>)

  /** One step of a directory iterator: an I/O error, an entry without a readable type, or a name. */
  datatype Dirent = Broken | Untyped(name: string) | Dirent(name: string, tree: Tree)

  function TreeSize(tree: Tree): nat {
    match tree
    case File(_) => 1
    case Symlink => 1
    case Directory(_, _, listing) => 1 + ListingSize(listing)
  }

  function ListingSize(listing: seq<Dirent>): nat
    decreases listing
  {
    if listing == [] then 0
    else (if listing[0].Dirent? then TreeSize(listing[0].tree) else 0) + ListingSize(listing[1..])
  }

  lemma {:induction false} SmallerThanListing(listing: seq<Dirent>, i: nat)
    requires i < |listing| && listing[i].Dirent?
    ensures TreeSize(listing[i].tree) <= ListingSize(listing)
  {
    if i > 0 {
      assert listing[1..][i - 1] == listing[i];
      SmallerThanListing(listing[1..], i - 1);
    }
  }

  /** The depth decision of `Walker::visit` for links that are not followed. */
  function SkipAt(boundary: Option<Boundary>, maxDepth: Option<nat>, depth: nat): Option<SkipReason> {
    if boundary == Some(OtherFileSystem) then Some(FileSystemBoundary)
    else if boundary == Some(OutsideRoot) then Some(PathEscape)
    else if maxDepth.Some? && depth >= maxDepth.value then Some(MaxDepth)
    else None
  }

  /** `Walker::visit`: the entry a walk limited to `maxDepth` yields for a tree. */
  function Visit(path: Path, depth: nat, tree: Tree, maxDepth: Option<nat>): WalkEntry {
    match tree
    case File(stdout) => WalkEntry(path, depth, true, false, false, stdout, None)
    case Symlink => WalkEntry(path, depth, false, false, true, false, None)
    case Directory(boundary, _, _) =>
      WalkEntry(path, depth, false, true, false, false, SkipAt(boundary, maxDepth, depth))
  }

  /** The walk lists what is below the tree: it is a directory inside the root, on the same file system, above
      the depth limit. */
  ghost predicate Entered(tree: Tree, maxDepth: Option<nat>, depth: nat) {
    tree.Directory? && tree.boundary.None? && (maxDepth.None? || depth < maxDepth.value)
  }

  /** What an entry tells about its tree: its kind, and of the reasons not to enter a directory the first in
      the order other file system, outside the root, depth limit. */
  lemma VisitTells(path: Path, depth: nat, tree: Tree, maxDepth: Option<nat>)
    ensures var entry := Visit(path, depth, tree, maxDepth);
      && entry.path == path && entry.depth == depth
      && entry.isFile == tree.File? && entry.isDirectory == tree.Directory? && entry.isSymlink == tree.Symlink?
      && entry.stdout == (tree.File? && tree.stdout)
      && (entry.skip == Some(FileSystemBoundary) <==> tree.Directory? && tree.boundary == Some(OtherFileSystem))
      && (entry.skip == Some(PathEscape) <==> tree.Directory? && tree.boundary == Some(OutsideRoot))
      && (entry.skip == Some(MaxDepth) <==> tree.Directory? && tree.boundary.None? && !Entered(tree, maxDepth, depth))
      && entry.skip != Some(SymlinkLoop)
      && (Descends(Ok(entry)) <==> Entered(tree, maxDepth, depth))
  {
    match tree
    case File(_) =>
    case Symlink =>
    case Directory(None, _, _) =>
    case Directory(Some(OtherFileSystem), _, _) =>
    case Directory(Some(OutsideRoot), _, _) =>
  }

  /** The depth limit of the throw-away walker that reads one directory. */
  function WorkerMaxDepth(maxDepth: Option<nat>, depth: nat): Option<nat> {
    Some(if maxDepth.Some? && maxDepth.value < depth + 1 then maxDepth.value else depth + 1)
  }

  /** Undoes the depth skip that only the worker's own limit caused. */
  function ClearDepthSkip(entry: WalkEntry, maxDepth: Option<nat>): WalkEntry {
    if entry.isDirectory && entry.skip == Some(MaxDepth) && (maxDepth.None? || entry.depth < maxDepth.value)
    then entry.(skip := None)
    else entry
  }

  /** The entry a one-directory read yields for a child of the directory `path`. */
  function ListedEntry(path: Path, depth: nat, name: string, tree: Tree, maxDepth: Option<nat>): WalkEntry {
    ClearDepthSkip(Visit(path + [name], depth + 1, tree, WorkerMaxDepth(maxDepth, depth)), maxDepth)
  }

  /** The worker's limit never shows: every child carries the skip the whole walk would give it. */
  lemma WorkerLimitInvisible(path: Path, depth: nat, name: string, tree: Tree, maxDepth: Option<nat>)
    ensures ListedEntry(path, depth, name, tree, maxDepth) == Visit(path + [name], depth + 1, tree, maxDepth)
  {
  }

  predicate Descends(item: WalkItem) { item.Ok? && item.value.isDirectory && item.value.skip.None? }

  /** The items up to and including the first error. */
  ghost function UpToError<T, E>(items: seq<Result<T, E>>): seq<Result<T, E>> {
    if items == [] then []
    else if items[0].Err? then [items[0]]
    else [items[0]] + UpToError(items[1..])
  }

  function ItemPath(item: WalkItem): Path {
    match item
    case Ok(entry) => entry.path
    case Err(error) => error.path
  }
}
