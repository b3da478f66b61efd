/** The difference of two manifests: a merge by path, then renames found by unique content hashes. */
module Delta {
  import opened Wrappers
  import opened Ordering
  import opened Report

  type Manifest = seq<ScannedFile>

  /** Sorted by path, no path twice. */
  ghost predicate IsManifest(files: Manifest) { Strictly(FileLess, files) }

  /** `same_content`. */
  predicate SameContent(previous: ScannedFile, current: ScannedFile) {
    && previous.bytes == current.bytes
    && (if previous.contentHash.Some? && current.contentHash.Some?
        then previous.contentHash == current.contentHash
        else Reusable(previous.version, current.version))
  }

  /** The files have the same content as far as the evidence goes: the same size, and equal hashes where both are
      known; where one is missing, equal known modification times and nothing else known to differ. */
  ghost predicate Alike(previous: ScannedFile, current: ScannedFile) {
    && previous.bytes == current.bytes
    && match (previous.contentHash, current.contentHash)
       case (Some(before), Some(after)) => before == after
       case _ => Unmoved(previous.version, current.version)
  }

  lemma AlikeIs(previous: ScannedFile, current: ScannedFile)
    ensures SameContent(previous, current) <==> Alike(previous, current)
  {
    ReusableMeans(previous.version, current.version);
  }

  datatype FilePair = FilePair(previous: ScannedFile, current: ScannedFile) {
    function Swapped(): FilePair { FilePair(current, previous) }
  }

  datatype ScanDelta = ScanDelta(
    added: Manifest, removed: Manifest, modified: seq<FilePair>, renamed: seq<FilePair>, same: nat)

  // What the delta means -----------------------------------------------------------------------

  predicate HasPath(files: Manifest, path: string) { exists f | f in files :: f.relative == path }

  /** The files whose path the other manifest does not have. */
  function Absent(files: Manifest, others: Manifest): Manifest {
    if files == [] then []
    else
      var last := |files| - 1;
      Absent(files[..last], others) + (if HasPath(others, files[last].relative) then [] else [files[last]])
  }

  function WithPath(files: Manifest, path: string): (file: ScannedFile)
    requires HasPath(files, path)
    ensures file in files && file.relative == path
  {
    if files[0].relative == path then files[0] else WithPath(files[1..], path)
  }

  /** The pairs of files at a common path whose contents agree, or the pairs whose contents do not. */
  ghost function Common(previous: Manifest, current: Manifest, same: bool): seq<FilePair> {
    if previous == [] then []
    else
      var last := |previous| - 1;
      Common(previous[..last], current, same)
      + (if HasPath(current, previous[last].relative)
            && Alike(previous[last], WithPath(current, previous[last].relative)) == same
         then [FilePair(previous[last], WithPath(current, previous[last].relative))] else [])
  }

  /** How many files carry the hash. */
  function HashCount(files: Manifest, hash: string): nat {
    if files == [] then 0
    else
      var last := |files| - 1;
      HashCount(files[..last], hash) + (if files[last].contentHash == Some(hash) then 1 else 0)
  }

  /** The two files share a hash that is unique in both manifests. */
  predicate IsRename(previous: Manifest, current: Manifest, before: ScannedFile, after: ScannedFile) {
    && before.contentHash.Some? && before.contentHash == after.contentHash
    && HashCount(previous, before.contentHash.value) == 1
    && HashCount(current, before.contentHash.value) == 1
  }

  /** The merge of two manifests, before renames are looked for. */
  ghost function Merged(previous: Manifest, current: Manifest): ScanDelta {
    ScanDelta(Absent(current, previous), Absent(previous, current), Common(previous, current, false), [],
              |Common(previous, current, true)|)
  }

  /** Every file of the first `i` and `j` has gone to exactly one of the four lists. */
  ghost predicate Accounts(previous: Manifest, i: nat, current: Manifest, j: nat, delta: ScanDelta, alike: seq<FilePair>)
    requires i <= |previous| && j <= |current|
  {
    && multiset(previous[..i]) == multiset(Befores(alike)) + multiset(Befores(delta.modified)) + multiset(delta.removed)
    && multiset(current[..j]) == multiset(Afters(alike)) + multiset(Afters(delta.modified)) + multiset(delta.added)
    && (forall pair | pair in alike :: pair.previous.relative == pair.current.relative && Alike(pair.previous, pair.current))
    && (forall pair | pair in delta.modified ::
          pair.previous.relative == pair.current.relative && !Alike(pair.previous, pair.current))
    && delta.same == |alike| && delta.renamed == []
  }

  lemma AccountsPair(previous: Manifest, i: nat, current: Manifest, j: nat, delta: ScanDelta, alike: seq<FilePair>)
    requires i < |previous| && j < |current| && previous[i].relative == current[j].relative
    requires Accounts(previous, i, current, j, delta, alike)
    ensures var pair := FilePair(previous[i], current[j]);
      if Alike(previous[i], current[j])
      then Accounts(previous, i + 1, current, j + 1, delta.(same := delta.same + 1), alike + [pair])
      else Accounts(previous, i + 1, current, j + 1, delta.(modified := delta.modified + [pair]), alike)
  {
    hide Alike, Befores, Afters;
    var pair := FilePair(previous[i], current[j]);
    assert previous[..i + 1] == previous[..i] + [previous[i]] && current[..j + 1] == current[..j] + [current[j]];
    Snoc(previous[..i], previous[i]);
    Snoc(current[..j], current[j]);
    PairAppended(alike, pair);
    PairAppended(delta.modified, pair);
    AddToSum(multiset(Befores(alike)), multiset(Befores(delta.modified)), multiset(delta.removed), previous[i]);
    AddToSum(multiset(Afters(alike)), multiset(Afters(delta.modified)), multiset(delta.added), current[j]);
  }

  lemma PairAppended(pairs: seq<FilePair>, pair: FilePair)
    ensures multiset(Befores(pairs + [pair])) == multiset(Befores(pairs)) + multiset{pair.previous}
    ensures multiset(Afters(pairs + [pair])) == multiset(Afters(pairs)) + multiset{pair.current}
  {
    assert Befores(pairs + [pair]) == Befores(pairs) + [pair.previous];
    assert Afters(pairs + [pair]) == Afters(pairs) + [pair.current];
  }

  lemma AccountsRemoved(previous: Manifest, i: nat, current: Manifest, j: nat, delta: ScanDelta, alike: seq<FilePair>)
    requires i < |previous| && j <= |current| && Accounts(previous, i, current, j, delta, alike)
    ensures Accounts(previous, i + 1, current, j, delta.(removed := delta.removed + [previous[i]]), alike)
  {
    assert previous[..i + 1] == previous[..i] + [previous[i]];
  }

  lemma AccountsAdded(previous: Manifest, i: nat, current: Manifest, j: nat, delta: ScanDelta, alike: seq<FilePair>)
    requires i <= |previous| && j < |current| && Accounts(previous, i, current, j, delta, alike)
    ensures Accounts(previous, i, current, j + 1, delta.(added := delta.added + [current[j]]), alike)
  {
    assert current[..j + 1] == current[..j] + [current[j]];
  }

  lemma MergesPair(previous: Manifest, i: nat, current: Manifest, j: nat)
    requires IsManifest(previous) && IsManifest(current) && i < |previous| && j < |current|
    requires previous[i].relative == current[j].relative
    requires Ahead(previous, i, current, j) && Ahead(current, j, previous, i)
    ensures var delta, pair := MergedUpTo(previous, current, i, j), FilePair(previous[i], current[j]);
      MergedUpTo(previous, current, i + 1, j + 1)
      == if Alike(previous[i], current[j]) then delta.(same := delta.same + 1)
         else delta.(modified := delta.modified + [pair])
    ensures Ahead(previous, i + 1, current, j + 1) && Ahead(current, j + 1, previous, i + 1)
  {
    hide HasPath, WithPath, Alike;
    CommonStep(previous, i, current, j);
    AbsentStep(current, j, previous, i);
    AbsentStep(previous, i, current, j);
    AheadBoth(previous, i, current, j);
  }

  lemma MergesRemoved(previous: Manifest, i: nat, current: Manifest, j: nat)
    requires IsManifest(previous) && IsManifest(current) && i < |previous| && j <= |current|
    requires j == |current| || TextLess(previous[i].relative, current[j].relative)
    requires Ahead(previous, i, current, j) && Ahead(current, j, previous, i)
    ensures var delta := MergedUpTo(previous, current, i, j);
      MergedUpTo(previous, current, i + 1, j) == delta.(removed := delta.removed + [previous[i]])
    ensures Ahead(previous, i + 1, current, j) && Ahead(current, j, previous, i + 1)
  {
    hide HasPath, WithPath, Alike;
    if j < |current| { OneWay(previous[i], current[j]); }
    Skip(previous, i, current, j);
  }

  lemma MergesAdded(previous: Manifest, i: nat, current: Manifest, j: nat)
    requires IsManifest(previous) && IsManifest(current) && i <= |previous| && j < |current|
    requires i < |previous| ==>
      previous[i].relative != current[j].relative && !TextLess(previous[i].relative, current[j].relative)
    requires Ahead(previous, i, current, j) && Ahead(current, j, previous, i)
    ensures var delta := MergedUpTo(previous, current, i, j);
      MergedUpTo(previous, current, i, j + 1) == delta.(added := delta.added + [current[j]])
    ensures Ahead(previous, i, current, j + 1) && Ahead(current, j + 1, previous, i)
  {
    hide HasPath, WithPath, Alike;
    if i < |previous| { OneWay(previous[i], current[j]); }
    Skip(current, j, previous, i);
  }

  /** The merge loop.  On any two lists no file is lost or counted twice; on manifests, sorted and without
      repeated paths, the four lists are what membership of the paths says. */
  method MergeFiles(previous: Manifest, current: Manifest) returns (delta: ScanDelta, ghost alike: seq<FilePair>)
    ensures Accounts(previous, |previous|, current, |current|, delta, alike)
    ensures IsManifest(previous) && IsManifest(current) ==> delta == Merged(previous, current)
  {
    hide HasPath, WithPath, SameContent, Alike, Accounts, MergedUpTo, Ahead, IsManifest;
    delta, alike := ScanDelta([], [], [], [], 0), [];
    var i, j := 0, 0;
    MergeStarts(previous, current);
    while i < |previous| || j < |current|
      invariant i <= |previous| && j <= |current| && Accounts(previous, i, current, j, delta, alike)
      invariant IsManifest(previous) && IsManifest(current) ==>
        delta == MergedUpTo(previous, current, i, j) && Ahead(previous, i, current, j) && Ahead(current, j, previous, i)
      decreases |previous| - i + |current| - j
    {
      if i < |previous| && j < |current| && previous[i].relative == current[j].relative {
        AccountsPair(previous, i, current, j, delta, alike);
        if IsManifest(previous) && IsManifest(current) { MergesPair(previous, i, current, j); }
        var before, after := previous[i], current[j];
        AlikeIs(before, after);
        if SameContent(before, after) {
          delta := delta.(same := delta.same + 1);
          alike := alike + [FilePair(before, after)];
        } else {
          delta := delta.(modified := delta.modified + [FilePair(before, after)]);
        }
        i, j := i + 1, j + 1;
      } else if j == |current| || (i < |previous| && TextLess(previous[i].relative, current[j].relative)) {
        AccountsRemoved(previous, i, current, j, delta, alike);
        if IsManifest(previous) && IsManifest(current) { MergesRemoved(previous, i, current, j); }
        delta := delta.(removed := delta.removed + [previous[i]]);
        i := i + 1;
      } else {
        AccountsAdded(previous, i, current, j, delta, alike);
        if IsManifest(previous) && IsManifest(current) { MergesAdded(previous, i, current, j); }
        delta := delta.(added := delta.added + [current[j]]);
        j := j + 1;
      }
    }
    MergeEnds(previous, current);
  }

  lemma MergeStarts(previous: Manifest, current: Manifest)
    ensures Accounts(previous, 0, current, 0, ScanDelta([], [], [], [], 0), [])
    ensures MergedUpTo(previous, current, 0, 0) == ScanDelta([], [], [], [], 0)
    ensures Ahead(previous, 0, current, 0) && Ahead(current, 0, previous, 0)
  {
  }

  lemma MergeEnds(previous: Manifest, current: Manifest)
    ensures MergedUpTo(previous, current, |previous|, |current|) == Merged(previous, current)
  {
    assert previous[..|previous|] == previous && current[..|current|] == current;
  }

  ghost function MergedUpTo(previous: Manifest, current: Manifest, i: nat, j: nat): ScanDelta
    requires i <= |previous| && j <= |current|
  {
    ScanDelta(Absent(current[..j], previous), Absent(previous[..i], current), Common(previous[..i], current, false), [],
              |Common(previous[..i], current, true)|)
  }

  /** The files before `i` sort before the others from `j` on. */
  ghost predicate Ahead(files: Manifest, i: nat, others: Manifest, j: nat)
    requires i <= |files| && j <= |others|
  {
    forall a, b | 0 <= a < i && j <= b < |others| :: FileLess(files[a], others[b])
  }

  lemma AheadBoth(files: Manifest, i: nat, others: Manifest, j: nat)
    requires IsManifest(files) && IsManifest(others) && i < |files| && j < |others|
    requires files[i].relative == others[j].relative && Ahead(files, i, others, j) && Ahead(others, j, files, i)
    ensures Ahead(files, i + 1, others, j + 1) && Ahead(others, j + 1, files, i + 1)
  {
  }

  lemma OneWay(a: ScannedFile, b: ScannedFile)
    ensures FileLess(a, b) ==> a.relative != b.relative && !FileLess(b, a)
  {
    TextStrictTotal();
  }

  /** A path that no file of the other manifest can have. */
  lemma Skip(files: Manifest, i: nat, others: Manifest, j: nat)
    requires IsManifest(files) && IsManifest(others) && i < |files| && j <= |others|
    requires Ahead(files, i, others, j) && Ahead(others, j, files, i)
    requires j == |others| || (files[i].relative != others[j].relative && !FileLess(others[j], files[i]))
    ensures Absent(files[..i + 1], others) == Absent(files[..i], others) + [files[i]]
    ensures forall same :: Common(files[..i + 1], others, same) == Common(files[..i], others, same)
    ensures Ahead(files, i + 1, others, j) && Ahead(others, j, files, i + 1)
  {
    assert files[..i + 1][..i] == files[..i];
    SkipPath(files, i, others, j);
    hide WithPath, Alike, TextLess;
  }

  lemma SkipPath(files: Manifest, i: nat, others: Manifest, j: nat)
    requires IsManifest(files) && IsManifest(others) && i < |files| && j <= |others|
    requires Ahead(files, i, others, j) && Ahead(others, j, files, i)
    requires j == |others| || (files[i].relative != others[j].relative && !FileLess(others[j], files[i]))
    ensures !HasPath(others, files[i].relative)
    ensures Ahead(files, i + 1, others, j) && Ahead(others, j, files, i + 1)
  {
    TextStrictTotal();
    forall b | 0 <= b < |others|
      ensures others[b].relative != files[i].relative
    {
      if b >= j { assert b == j || FileLess(others[j], others[b]); }
    }
  }

  lemma FoundAt(others: Manifest, j: nat, path: string)
    requires IsManifest(others) && j < |others| && others[j].relative == path
    ensures HasPath(others, path) && WithPath(others, path) == others[j]
  {
    TextStrictTotal();
    assert others[j] in others;
    var found := WithPath(others, path);
    var k :| 0 <= k < |others| && others[k] == found;
  }

  lemma CommonStep(previous: Manifest, i: nat, current: Manifest, j: nat)
    requires IsManifest(current) && i < |previous| && j < |current| && previous[i].relative == current[j].relative
    ensures forall same ::
      Common(previous[..i + 1], current, same)
      == if Alike(previous[i], current[j]) == same
         then Common(previous[..i], current, same) + [FilePair(previous[i], current[j])]
         else Common(previous[..i], current, same)
  {
    hide HasPath, WithPath, Alike, IsManifest;
    FoundAt(current, j, previous[i].relative);
    var upTo := previous[..i + 1];
    assert upTo[..i] == previous[..i] && upTo[i] == previous[i] && |upTo| - 1 == i;
  }

  lemma AbsentStep(files: Manifest, i: nat, others: Manifest, j: nat)
    requires IsManifest(others) && i < |files| && j < |others| && files[i].relative == others[j].relative
    ensures Absent(files[..i + 1], others) == Absent(files[..i], others)
  {
    FoundAt(others, j, files[i].relative);
    assert files[..i + 1][..i] == files[..i];
  }

  // Renames ------------------------------------------------------------------------------------

  /** Some file of the list is the other side of a rename. */
  predicate Renamed(previous: Manifest, current: Manifest, before: ScannedFile, added: Manifest) {
    exists after | after in added :: IsRename(previous, current, before, after)
  }

  function RenameTarget(previous: Manifest, current: Manifest, before: ScannedFile, added: Manifest): (after: ScannedFile)
    requires Renamed(previous, current, before, added)
    ensures after in added && IsRename(previous, current, before, after)
  {
    if IsRename(previous, current, before, added[0]) then added[0]
    else RenameTarget(previous, current, before, added[1..])
  }

  /** The renames, in the order of the removed files. */
  function Renames(previous: Manifest, current: Manifest, removed: Manifest, added: Manifest): seq<FilePair> {
    if removed == [] then []
    else
      var last := |removed| - 1;
      Renames(previous, current, removed[..last], added)
      + (if Renamed(previous, current, removed[last], added)
         then [FilePair(removed[last], RenameTarget(previous, current, removed[last], added))] else [])
  }

  /** The files that are not one side of a rename. */
  function Kept(previous: Manifest, current: Manifest, removed: Manifest, added: Manifest): Manifest {
    if removed == [] then []
    else
      var last := |removed| - 1;
      Kept(previous, current, removed[..last], added)
      + (if Renamed(previous, current, removed[last], added) then [] else [removed[last]])
  }

  /** The whole delta. */
  ghost function DeltaOf(previous: Manifest, current: Manifest): ScanDelta {
    var merged := Merged(previous, current);
    ScanDelta(
      Kept(current, previous, merged.added, merged.removed),
      Kept(previous, current, merged.removed, merged.added),
      merged.modified,
      Renames(previous, current, merged.removed, merged.added),
      merged.same)
  }

  /** `hash_counts`. */
  method HashCounts(files: Manifest) returns (counts: map<string, nat>)
    ensures forall hash :: (if hash in counts then counts[hash] else 0) == HashCount(files, hash)
  {
    counts := map[];
    for i := 0 to |files|
      invariant forall hash :: (if hash in counts then counts[hash] else 0) == HashCount(files[..i], hash)
    {
      assert files[..i + 1][..i] == files[..i];
      if files[i].contentHash.Some? {
        var hash := files[i].contentHash.value;
        counts := counts[hash := (if hash in counts then counts[hash] else 0) + 1];
      }
    }
    assert files[..|files|] == files;
  }

  /** The one index of each hash that a single file of the list carries. */
  ghost predicate IndexesUnique(files: Manifest, indices: map<string, nat>) {
    && (forall hash | hash in indices :: indices[hash] < |files| && files[indices[hash]].contentHash == Some(hash))
    && (forall hash :: hash in indices <==> HashCount(files, hash) == 1)
  }

  /** `unique_indices`. */
  method UniqueIndices(files: Manifest) returns (indices: map<string, nat>)
    ensures IndexesUnique(files, indices)
  {
    indices := map[];
    var duplicates: set<string> := {};
    for i := 0 to |files|
      invariant forall hash | hash in indices :: indices[hash] < i && files[indices[hash]].contentHash == Some(hash)
      invariant forall hash :: hash in indices <==> HashCount(files[..i], hash) >= 1
      invariant forall hash :: hash in duplicates <==> HashCount(files[..i], hash) >= 2
    {
      assert files[..i + 1][..i] == files[..i];
      if files[i].contentHash.Some? {
        var hash := files[i].contentHash.value;
        if hash in indices {
          duplicates := duplicates + {hash};
        }
        indices := indices[hash := i];
      }
    }
    assert files[..|files|] == files;
    indices := map hash | hash in indices && hash !in duplicates :: indices[hash];
  }

  /** A file with a hash makes the hash count. */
  lemma {:induction false} Counted(files: Manifest, i: nat)
    requires i < |files| && files[i].contentHash.Some?
    ensures HashCount(files, files[i].contentHash.value) >= 1
  {
    var last := |files| - 1;
    if i < last { Counted(files[..last], i); }
  }

  /** A hash that counts once is carried by one file. */
  lemma {:induction false} CountedOnce(files: Manifest, i: nat, j: nat, hash: string)
    requires i < j < |files| && files[i].contentHash == Some(hash) && files[j].contentHash == Some(hash)
    ensures HashCount(files, hash) >= 2
  {
    var last := |files| - 1;
    if j < last { CountedOnce(files[..last], i, j, hash); } else { Counted(files[..last], i); }
  }

  /** Every file of a sublist counts in the list. */
  ghost predicate Sublist(part: Manifest, files: Manifest) {
    (forall f | f in part :: f in files) && forall hash :: HashCount(part, hash) <= HashCount(files, hash)
  }

  lemma {:induction false} AbsentFiles(files: Manifest, others: Manifest)
    ensures forall f :: f in Absent(files, others) <==> f in files && !HasPath(others, f.relative)
  {
    hide HasPath;
    if files != [] {
      var last := |files| - 1;
      AbsentFiles(files[..last], others);
      assert files == files[..last] + [files[last]];
    }
  }

  lemma {:induction false} AbsentCount(files: Manifest, others: Manifest, hash: string)
    ensures HashCount(Absent(files, others), hash) <= HashCount(files, hash)
  {
    hide HasPath;
    if files != [] {
      var last := |files| - 1;
      AbsentCount(files[..last], others, hash);
      CountSnoc(Absent(files[..last], others), files[last], hash);
    }
  }

  lemma CountSnoc(files: Manifest, file: ScannedFile, hash: string)
    ensures HashCount(files + [file], hash) == HashCount(files, hash) + (if file.contentHash == Some(hash) then 1 else 0)
    ensures files + [] == files
  {
    var all := files + [file];
    assert all[|all| - 1] == file && all[..|all| - 1] == files;
  }

  lemma AbsentSublist(files: Manifest, others: Manifest)
    ensures Sublist(Absent(files, others), files)
    ensures forall f :: f in Absent(files, others) <==> f in files && !HasPath(others, f.relative)
  {
    hide HasPath, HashCount;
    AbsentFiles(files, others);
    forall hash ensures HashCount(Absent(files, others), hash) <= HashCount(files, hash) {
      AbsentCount(files, others, hash);
    }
  }

  predicate PairLess(a: FilePair, b: FilePair) {
    || FileLess(a.previous, b.previous)
    || (a.previous.relative == b.previous.relative && FileLess(a.current, b.current))
  }

  /** What the search for renames looks at. */
  datatype Search = Search(
    previous: Manifest, current: Manifest, removed: Manifest, added: Manifest,
    removedBy: map<string, nat>, addedBy: map<string, nat>)
  {
    ghost predicate Valid() {
      && IndexesUnique(removed, removedBy) && IndexesUnique(added, addedBy)
      && Sublist(removed, previous) && Sublist(added, current)
      && IsManifest(removed)
    }

    /** The hash is unique in both manifests and lies on both sides. */
    predicate Paired(hash: string) {
      && hash in removedBy && hash in addedBy
      && HashCount(previous, hash) == 1 && HashCount(current, hash) == 1
    }

    function PairOf(hash: string): FilePair
      requires hash in removedBy && hash in addedBy && removedBy[hash] < |removed| && addedBy[hash] < |added|
    {
      FilePair(removed[removedBy[hash]], added[addedBy[hash]])
    }

    /** The marks after the hashes in `done`. */
    ghost predicate Marked(done: set<string>, removedRenames: seq<bool>, addedRenames: seq<bool>) {
      && |removedRenames| == |removed| && |addedRenames| == |added|
      && (forall i | 0 <= i < |removed| :: removedRenames[i] <==> Marks(done, removed[i], removedBy, i))
      && (forall j | 0 <= j < |added| :: addedRenames[j] <==> Marks(done, added[j], addedBy, j))
    }

    ghost predicate Marks(done: set<string>, file: ScannedFile, index: map<string, nat>, i: nat) {
      && file.contentHash.Some? && file.contentHash.value in done && Paired(file.contentHash.value)
      && file.contentHash.value in index && index[file.contentHash.value] == i
    }

    /** The pairs after the hashes in `done`. */
    ghost predicate Collected(done: set<string>, renamed: seq<FilePair>)
      requires Valid()
    {
      && NoDuplicates(renamed)
      && (forall hash | hash in done && Paired(hash) :: PairOf(hash) in renamed)
      && (forall pair | pair in renamed :: pair.previous.contentHash.Some?
            && var hash := pair.previous.contentHash.value; hash in done && Paired(hash) && pair == PairOf(hash))
    }
  }

  /** A rename pairs the two files that the unique indices name. */
  lemma RenameIsPaired(s: Search, i: nat, j: nat)
    requires s.Valid() && i < |s.removed| && j < |s.added|
    requires IsRename(s.previous, s.current, s.removed[i], s.added[j])
    ensures var hash := s.removed[i].contentHash.value;
      s.Paired(hash) && s.removedBy[hash] == i && s.addedBy[hash] == j
  {
    var hash := s.removed[i].contentHash.value;
    Counted(s.removed, i);
    Counted(s.added, j);
    OnlyOne(s.removed, i, s.removedBy[hash], hash);
    OnlyOne(s.added, j, s.addedBy[hash], hash);
  }

  lemma OnlyOne(files: Manifest, i: nat, j: nat, hash: string)
    requires i < |files| && j < |files| && HashCount(files, hash) <= 1
    requires files[i].contentHash == Some(hash) && files[j].contentHash == Some(hash)
    ensures i == j
  {
    if i < j { CountedOnce(files, i, j, hash); }
    if j < i { CountedOnce(files, j, i, hash); }
  }

  lemma PairedIsRename(s: Search, hash: string)
    requires s.Valid() && s.Paired(hash)
    ensures var pair := s.PairOf(hash);
      && pair.previous.contentHash == Some(hash)
      && IsRename(s.previous, s.current, pair.previous, pair.current)
      && Renamed(s.previous, s.current, pair.previous, s.added) && Renamed(s.current, s.previous, pair.current, s.removed)
  {
    var pair := s.PairOf(hash);
    assert pair.previous in s.removed && pair.current in s.added;
    assert IsRename(s.previous, s.current, pair.previous, pair.current);
    assert IsRename(s.current, s.previous, pair.current, pair.previous);
  }

  /** `detect_unique_renames` on the result of the merge. */
  method DetectUniqueRenames(previous: Manifest, current: Manifest, merged: ScanDelta) returns (delta: ScanDelta)
    requires IsManifest(previous) && IsManifest(current) && merged == Merged(previous, current)
    ensures delta == DeltaOf(previous, current)
  {
    hide HashCount, Sublist, IsManifest, Absent, Common, IndexesUnique, Search.Marked, Search.Collected, Search.Valid;
    MergedSublists(previous, current);
    var previousCounts := HashCounts(previous);
    var currentCounts := HashCounts(current);
    var addedBy := UniqueIndices(merged.added);
    var removedBy := UniqueIndices(merged.removed);
    var s := Search(previous, current, merged.removed, merged.added, removedBy, addedBy);
    SearchValid(s);
    var removedRenames := seq(|merged.removed|, _ => false);
    var addedRenames := seq(|merged.added|, _ => false);
    var renamed: seq<FilePair> := [];
    var hashes := removedBy.Keys;
    NothingDone(s, removedRenames, addedRenames);
    // The source goes through the hashes in ascending order; any order gives the same delta.
    while hashes != {}
      invariant hashes <= removedBy.Keys
      invariant s.Marked(removedBy.Keys - hashes, removedRenames, addedRenames)
      invariant s.Collected(removedBy.Keys - hashes, renamed)
    {
      var hash :| hash in hashes;
      ghost var done := removedBy.Keys - hashes;
      hashes := hashes - {hash};
      assert removedBy.Keys - hashes == done + {hash};
      OneMore(s, done, hash, removedRenames, addedRenames, renamed);
      if hash in addedBy && hash in previousCounts && previousCounts[hash] == 1
         && hash in currentCounts && currentCounts[hash] == 1
      {
        removedRenames := removedRenames[removedBy[hash] := true];
        addedRenames := addedRenames[addedBy[hash] := true];
        renamed := renamed + [s.PairOf(hash)];
      }
    }
    assert removedBy.Keys - hashes == removedBy.Keys;
    SearchDone(s, removedRenames, addedRenames, renamed);
    var keptAdded := RetainUnmarked(merged.added, addedRenames, current, previous, merged.removed);
    var keptRemoved := RetainUnmarked(merged.removed, removedRenames, previous, current, merged.added);
    delta := ScanDelta(keptAdded, keptRemoved, merged.modified, Sort(PairLess, renamed), merged.same);
  }

  lemma SearchValid(s: Search)
    requires IndexesUnique(s.removed, s.removedBy) && IndexesUnique(s.added, s.addedBy)
    requires Sublist(s.removed, s.previous) && Sublist(s.added, s.current) && IsManifest(s.removed)
    ensures s.Valid()
  {
  }

  lemma NothingDone(s: Search, removedRenames: seq<bool>, addedRenames: seq<bool>)
    requires s.Valid() && |removedRenames| == |s.removed| && |addedRenames| == |s.added|
    requires (forall i | 0 <= i < |s.removed| :: !removedRenames[i]) && forall j | 0 <= j < |s.added| :: !addedRenames[j]
    ensures forall done | done == {} :: s.Marked(done, removedRenames, addedRenames) && s.Collected(done, [])
  {
  }

  lemma OneMore(s: Search, done: set<string>, hash: string,
                removedRenames: seq<bool>, addedRenames: seq<bool>, renamed: seq<FilePair>)
    requires s.Valid() && hash in s.removedBy && hash !in done
    requires s.Marked(done, removedRenames, addedRenames) && s.Collected(done, renamed)
    ensures s.removedBy[hash] < |removedRenames|
    ensures s.Paired(hash) ==>
      && s.addedBy[hash] < |addedRenames| && |removedRenames| == |s.removed| && |addedRenames| == |s.added|
      && s.Marked(done + {hash}, removedRenames[s.removedBy[hash] := true], addedRenames[s.addedBy[hash] := true])
      && s.Collected(done + {hash}, renamed + [s.PairOf(hash)])
    ensures !s.Paired(hash) ==>
      s.Marked(done + {hash}, removedRenames, addedRenames) && s.Collected(done + {hash}, renamed)
  {
    hide HashCount, Sublist, IsManifest;
    if s.Paired(hash) {
      PairedIsRename(s, hash);
      var pair := s.PairOf(hash);
      assert pair !in renamed;
      var more := renamed + [pair];
      assert forall p :: p in more <==> p in renamed || p == pair;
    }
  }

  /** The search has found exactly the renames. */
  lemma SearchDone(s: Search, removedRenames: seq<bool>, addedRenames: seq<bool>, renamed: seq<FilePair>)
    requires s.Valid() && s.Marked(s.removedBy.Keys, removedRenames, addedRenames)
    requires s.Collected(s.removedBy.Keys, renamed)
    ensures |removedRenames| == |s.removed| && |addedRenames| == |s.added|
    ensures forall i | 0 <= i < |s.removed| :: removedRenames[i] <==> Renamed(s.previous, s.current, s.removed[i], s.added)
    ensures forall j | 0 <= j < |s.added| :: addedRenames[j] <==> Renamed(s.current, s.previous, s.added[j], s.removed)
    ensures Sort(PairLess, renamed) == Renames(s.previous, s.current, s.removed, s.added)
  {
    hide HashCount, Sublist, IsManifest, IndexesUnique;
    forall i | 0 <= i < |s.removed|
      ensures removedRenames[i] <==> Renamed(s.previous, s.current, s.removed[i], s.added)
    {
      RemovedMark(s, i);
    }
    forall j | 0 <= j < |s.added|
      ensures addedRenames[j] <==> Renamed(s.current, s.previous, s.added[j], s.removed)
    {
      AddedMark(s, j);
    }
    RenamesSorted(s, renamed);
  }

  lemma RemovedMark(s: Search, i: nat)
    requires s.Valid() && i < |s.removed|
    ensures s.Marks(s.removedBy.Keys, s.removed[i], s.removedBy, i) <==> Renamed(s.previous, s.current, s.removed[i], s.added)
  {
    if Renamed(s.previous, s.current, s.removed[i], s.added) {
      var after :| after in s.added && IsRename(s.previous, s.current, s.removed[i], after);
      var j :| 0 <= j < |s.added| && s.added[j] == after;
      RenameIsPaired(s, i, j);
    }
    if s.Marks(s.removedBy.Keys, s.removed[i], s.removedBy, i) {
      PairedIsRename(s, s.removed[i].contentHash.value);
    }
  }

  lemma AddedMark(s: Search, j: nat)
    requires s.Valid() && j < |s.added|
    ensures s.Marks(s.removedBy.Keys, s.added[j], s.addedBy, j) <==> Renamed(s.current, s.previous, s.added[j], s.removed)
  {
    if Renamed(s.current, s.previous, s.added[j], s.removed) {
      var before :| before in s.removed && IsRename(s.current, s.previous, s.added[j], before);
      var i :| 0 <= i < |s.removed| && s.removed[i] == before;
      assert IsRename(s.previous, s.current, s.removed[i], s.added[j]);
      RenameIsPaired(s, i, j);
    }
    if s.Marks(s.removedBy.Keys, s.added[j], s.addedBy, j) {
      PairedIsRename(s, s.added[j].contentHash.value);
    }
  }

  /** The renames in the order of their removed files. */
  lemma {:induction false} RenamesAre(previous: Manifest, current: Manifest, removed: Manifest, added: Manifest)
    requires IsManifest(removed)
    ensures forall pair :: pair in Renames(previous, current, removed, added) <==>
      pair.previous in removed && Renamed(previous, current, pair.previous, added)
      && pair.current == RenameTarget(previous, current, pair.previous, added)
    ensures Strictly(PairLess, Renames(previous, current, removed, added))
  {
    if removed != [] {
      var last := |removed| - 1;
      RenamesAre(previous, current, removed[..last], added);
      assert removed == removed[..last] + [removed[last]];
      forall f | f in removed[..last]
        ensures FileLess(f, removed[last])
      {
        var k :| 0 <= k < last && removed[k] == f;
      }
    }
  }

  lemma RenamesSorted(s: Search, renamed: seq<FilePair>)
    requires s.Valid() && s.Collected(s.removedBy.Keys, renamed)
    ensures Sort(PairLess, renamed) == Renames(s.previous, s.current, s.removed, s.added)
  {
    var expected := Renames(s.previous, s.current, s.removed, s.added);
    RenamesAre(s.previous, s.current, s.removed, s.added);
    forall pair
      ensures pair in expected <==> pair in renamed
    {
      RenamesFound(s, renamed, pair);
    }
    PairOrder();
    SameElementsPermute(expected, renamed);
    SortSorts(PairLess, renamed);
    StrictlyComparable(expected);
    SortedUnique(PairLess, expected, Sort(PairLess, renamed));
  }

  lemma StrictlyComparable(pairs: seq<FilePair>)
    requires Strictly(PairLess, pairs) && WeakOrder(PairLess)
    ensures NoDuplicates(pairs) && SortedBy(PairLess, pairs)
    ensures forall x, y | x in pairs && y in pairs && x != y :: PairLess(x, y) || PairLess(y, x)
  {
  }

  lemma PairOrder()
    ensures WeakOrder(PairLess)
  {
    TextStrictTotal();
  }

  lemma RenamesFound(s: Search, renamed: seq<FilePair>, pair: FilePair)
    requires s.Valid() && s.Collected(s.removedBy.Keys, renamed)
    ensures pair in renamed <==>
      pair.previous in s.removed && Renamed(s.previous, s.current, pair.previous, s.added)
      && pair.current == RenameTarget(s.previous, s.current, pair.previous, s.added)
  {
    hide HashCount, Sublist, IsManifest;
    if pair in renamed {
      var hash := pair.previous.contentHash.value;
      PairedIsRename(s, hash);
    }
    if pair.previous in s.removed && Renamed(s.previous, s.current, pair.previous, s.added) {
      var target := RenameTarget(s.previous, s.current, pair.previous, s.added);
      var i :| 0 <= i < |s.removed| && s.removed[i] == pair.previous;
      var j :| 0 <= j < |s.added| && s.added[j] == target;
      RenameIsPaired(s, i, j);
    }
  }

  /** `retain_unmarked`. */
  method RetainUnmarked(files: Manifest, marked: seq<bool>,
                        ghost previous: Manifest, ghost current: Manifest, ghost others: Manifest) returns (kept: Manifest)
    requires |marked| == |files|
    requires forall i | 0 <= i < |files| :: marked[i] <==> Renamed(previous, current, files[i], others)
    ensures kept == Kept(previous, current, files, others)
  {
    kept := [];
    for i := 0 to |files|
      invariant kept == Kept(previous, current, files[..i], others)
    {
      assert files[..i + 1][..i] == files[..i];
      if !marked[i] {
        kept := kept + [files[i]];
      }
    }
    assert files[..|files|] == files;
  }

  lemma MergedSublists(previous: Manifest, current: Manifest)
    requires IsManifest(previous) && IsManifest(current)
    ensures Sublist(Merged(previous, current).removed, previous) && Sublist(Merged(previous, current).added, current)
    ensures IsManifest(Merged(previous, current).removed)
  {
    AbsentSublist(previous, current);
    AbsentSublist(current, previous);
    AbsentSorted(previous, current);
  }

  lemma {:induction false} AbsentSorted(files: Manifest, others: Manifest)
    requires IsManifest(files)
    ensures IsManifest(Absent(files, others))
  {
    if files != [] {
      var last := |files| - 1;
      var rest := Absent(files[..last], others);
      AbsentSorted(files[..last], others);
      AbsentSublist(files[..last], others);
      forall i | 0 <= i < |rest|
        ensures FileLess(rest[i], files[last])
      {
        assert rest[i] in files[..last];
        var k :| 0 <= k < last && files[k] == rest[i];
      }
    }
  }

  /** `ScanDelta::between`: sorts both file lists, merges them and looks for renames. */
  method Between(previous: Manifest, current: Manifest) returns (delta: ScanDelta)
    requires DistinctPaths(previous) && DistinctPaths(current)
    ensures delta == DeltaOf(Sort(FileLess, previous), Sort(FileLess, current))
  {
    SortIsManifest(previous);
    SortIsManifest(current);
    var previousFiles, currentFiles := Sort(FileLess, previous), Sort(FileLess, current);
    var merged, _ := MergeFiles(previousFiles, currentFiles);
    delta := DetectUniqueRenames(previousFiles, currentFiles, merged);
  }

  ghost predicate DistinctPaths(files: Manifest) {
    forall i, j | 0 <= i < j < |files| :: files[i].relative != files[j].relative
  }

  lemma SortIsManifest(files: Manifest)
    requires DistinctPaths(files)
    ensures IsManifest(Sort(FileLess, files)) && multiset(Sort(FileLess, files)) == multiset(files)
  {
    FileOrder();
    TextStrictTotal();
    SortSorts(FileLess, files);
    SortStrict(FileLess, files);
  }

  // What the delta accounts for ----------------------------------------------------------------

  function Befores(pairs: seq<FilePair>): Manifest { seq(|pairs|, i requires 0 <= i < |pairs| => pairs[i].previous) }

  function Afters(pairs: seq<FilePair>): Manifest { seq(|pairs|, i requires 0 <= i < |pairs| => pairs[i].current) }

  lemma BeforesAppend(a: seq<FilePair>, b: seq<FilePair>)
    ensures Befores(a + b) == Befores(a) + Befores(b)
  {
  }

  lemma BeforesOne(pair: FilePair)
    ensures Befores([pair]) == [pair.previous]
  {
  }

  lemma BeforesNone()
    ensures Befores([]) == []
  {
  }

  lemma Snoc(files: Manifest, file: ScannedFile)
    ensures multiset(files + [file]) == multiset(files) + multiset{file}
  {
  }

  lemma AddToSum(a: multiset<ScannedFile>, b: multiset<ScannedFile>, c: multiset<ScannedFile>, x: ScannedFile)
    ensures a + b + c + multiset{x} == (a + multiset{x}) + b + c == a + (b + multiset{x}) + c == a + b + (c + multiset{x})
  {
  }

  lemma PairAdded(pairs: seq<FilePair>, pair: FilePair)
    ensures multiset(Befores(pairs + [pair])) == multiset(Befores(pairs)) + multiset{pair.previous}
  {
    BeforesAppend(pairs, [pair]);
    BeforesOne(pair);
    Snoc(Befores(pairs), pair.previous);
  }

  /** The last previous file goes to exactly one of the three lists. */
  lemma LastMerged(previous: Manifest, current: Manifest)
    requires previous != []
    ensures var init, file := previous[..|previous| - 1], previous[|previous| - 1];
      var same, modified, removed := Common(init, current, true), Common(init, current, false), Absent(init, current);
      var same', modified', removed' := Common(previous, current, true), Common(previous, current, false), Absent(previous, current);
      || (removed' == removed + [file] && same' == same && modified' == modified)
      || (exists pair: FilePair :: pair.previous == file && removed' == removed
            && ((same' == same + [pair] && modified' == modified) || (same' == same && modified' == modified + [pair])))
  {
    var file := previous[|previous| - 1];
    if HasPath(current, file.relative) {
      var pair := FilePair(file, WithPath(current, file.relative));
      assert pair.previous == file;
    }
  }

  lemma {:induction false} MergeAccounts(previous: Manifest, current: Manifest)
    ensures multiset(previous)
         == multiset(Befores(Common(previous, current, true))) + multiset(Befores(Common(previous, current, false)))
            + multiset(Absent(previous, current))
  {
    if previous == [] {
      BeforesNone();
    } else {
      hide Befores, Common, Absent;
      var init, file := previous[..|previous| - 1], previous[|previous| - 1];
      MergeAccounts(init, current);
      assert previous == init + [file];
      Snoc(init, file);
      LastMerged(previous, current);
      var same, modified, removed := Common(init, current, true), Common(init, current, false), Absent(init, current);
      AddToSum(multiset(Befores(same)), multiset(Befores(modified)), multiset(removed), file);
      if Absent(previous, current) == removed + [file] && Common(previous, current, true) == same
         && Common(previous, current, false) == modified {
        Snoc(removed, file);
      } else {
        var pair: FilePair :| pair.previous == file && Absent(previous, current) == removed
          && ((Common(previous, current, true) == same + [pair] && Common(previous, current, false) == modified)
              || (Common(previous, current, true) == same && Common(previous, current, false) == modified + [pair]));
        PairAdded(same, pair);
        PairAdded(modified, pair);
      }
    }
  }

  lemma LastRenamed(previous: Manifest, current: Manifest, removed: Manifest, added: Manifest)
    requires removed != []
    ensures var init, file := removed[..|removed| - 1], removed[|removed| - 1];
      var renamed, kept := Renames(previous, current, init, added), Kept(previous, current, init, added);
      var renamed', kept' := Renames(previous, current, removed, added), Kept(previous, current, removed, added);
      || (kept' == kept + [file] && renamed' == renamed)
      || (exists pair: FilePair :: pair.previous == file && kept' == kept && renamed' == renamed + [pair])
  {
    var file := removed[|removed| - 1];
    if Renamed(previous, current, file, added) {
      var pair := FilePair(file, RenameTarget(previous, current, file, added));
      assert pair.previous == file;
    }
  }

  lemma {:induction false} RenamesAccount(previous: Manifest, current: Manifest, removed: Manifest, added: Manifest)
    ensures multiset(removed)
         == multiset(Befores(Renames(previous, current, removed, added))) + multiset(Kept(previous, current, removed, added))
  {
    if removed == [] {
      BeforesNone();
    } else {
      hide Befores, Renames, Kept;
      var init, file := removed[..|removed| - 1], removed[|removed| - 1];
      RenamesAccount(previous, current, init, added);
      assert removed == init + [file];
      Snoc(init, file);
      LastRenamed(previous, current, removed, added);
      var renamed, kept := Renames(previous, current, init, added), Kept(previous, current, init, added);
      AddToSum(multiset(Befores(renamed)), multiset(kept), multiset{}, file);
      if Kept(previous, current, removed, added) == kept + [file] && Renames(previous, current, removed, added) == renamed {
        Snoc(kept, file);
      } else {
        var pair: FilePair :| pair.previous == file && Kept(previous, current, removed, added) == kept
          && Renames(previous, current, removed, added) == renamed + [pair];
        PairAdded(renamed, pair);
      }
    }
  }

  /** The unchanged, modified, removed and renamed files are the previous manifest. */
  lemma PreviousPartition(previous: Manifest, current: Manifest)
    ensures var delta := DeltaOf(previous, current);
      var same := Common(previous, current, true);
      && delta.same == |same|
      && multiset(previous)
         == multiset(Befores(same)) + multiset(Befores(delta.modified)) + multiset(delta.removed)
            + multiset(Befores(delta.renamed))
  {
    MergeAccounts(previous, current);
    RenamesAccount(previous, current, Absent(previous, current), Absent(current, previous));
  }

  // Swapping the manifests ---------------------------------------------------------------------

  function Swap(pairs: seq<FilePair>): seq<FilePair> {
    seq(|pairs|, i requires 0 <= i < |pairs| => pairs[i].Swapped())
  }

  lemma {:induction false} CommonAre(previous: Manifest, current: Manifest, same: bool)
    requires IsManifest(previous) && IsManifest(current)
    ensures forall pair :: pair in Common(previous, current, same) <==>
      && pair.previous in previous && pair.current in current
      && pair.previous.relative == pair.current.relative && Alike(pair.previous, pair.current) == same
    ensures Strictly(PairLess, Common(previous, current, same))
  {
    if previous != [] {
      var last := |previous| - 1;
      CommonAre(previous[..last], current, same);
      assert previous == previous[..last] + [previous[last]];
      forall f | f in previous[..last]
        ensures FileLess(f, previous[last])
      {
        var k :| 0 <= k < last && previous[k] == f;
      }
      if HasPath(current, previous[last].relative) {
        var found := WithPath(current, previous[last].relative);
        forall g | g in current && g.relative == previous[last].relative
          ensures g == found
        {
          var k :| 0 <= k < |current| && current[k] == g;
          FoundAt(current, k, g.relative);
        }
      }
    }
  }

  lemma SwapIn(pairs: seq<FilePair>, pair: FilePair)
    ensures pair in Swap(pairs) <==> pair.Swapped() in pairs
  {
    if pair in Swap(pairs) {
      var i :| 0 <= i < |pairs| && Swap(pairs)[i] == pair;
      assert pairs[i] == pair.Swapped();
    }
    if pair.Swapped() in pairs {
      var i :| 0 <= i < |pairs| && pairs[i] == pair.Swapped();
      assert Swap(pairs)[i] == pair;
    }
  }

  /** Pairs at a common path are the same pairs seen from either side. */
  lemma CommonSwaps(previous: Manifest, current: Manifest, same: bool)
    requires IsManifest(previous) && IsManifest(current)
    ensures Common(current, previous, same) == Swap(Common(previous, current, same))
  {
    hide Common;
    CommonAre(previous, current, same);
    CommonAre(current, previous, same);
    var a, b := Common(current, previous, same), Swap(Common(previous, current, same));
    PairOrder();
    SwapStrict(previous, current, Common(previous, current, same));
    forall pair
      ensures pair in a <==> pair in b
    {
      SwapIn(Common(previous, current, same), pair);
      assert Alike(pair.previous, pair.current) == Alike(pair.current, pair.previous);
    }
    StrictUnique(PairLess, a, b);
  }

  lemma SwapStrict(previous: Manifest, current: Manifest, pairs: seq<FilePair>)
    requires Strictly(PairLess, pairs) && forall p | p in pairs :: p.previous.relative == p.current.relative
    ensures Strictly(PairLess, Swap(pairs))
  {
    TextStrictTotal();
    forall i, j | 0 <= i < j < |pairs|
      ensures PairLess(pairs[i].Swapped(), pairs[j].Swapped())
    {
      assert pairs[i] in pairs && pairs[j] in pairs && PairLess(pairs[i], pairs[j]);
    }
  }

  /** Swapping the manifests swaps added with removed and the sides of every pair. */
  lemma SwapSymmetry(previous: Manifest, current: Manifest)
    requires IsManifest(previous) && IsManifest(current)
    ensures var delta, back := DeltaOf(previous, current), DeltaOf(current, previous);
      && back.added == delta.removed && back.removed == delta.added
      && back.modified == Swap(delta.modified) && back.same == delta.same
      && multiset(back.renamed) == multiset(Swap(delta.renamed))
  {
    CommonSwaps(previous, current, false);
    CommonSwaps(previous, current, true);
    RenamesSwap(previous, current);
  }

  lemma RenamesSwap(previous: Manifest, current: Manifest)
    requires IsManifest(previous) && IsManifest(current)
    ensures multiset(Renames(current, previous, Absent(current, previous), Absent(previous, current)))
         == multiset(Swap(Renames(previous, current, Absent(previous, current), Absent(current, previous))))
  {
    hide Renames, Absent;
    var removed, added := Absent(previous, current), Absent(current, previous);
    AbsentSorted(previous, current);
    AbsentSorted(current, previous);
    AbsentSublist(previous, current);
    AbsentSublist(current, previous);
    RenamesAre(previous, current, removed, added);
    RenamesAre(current, previous, added, removed);
    PairOrder();
    var a, b := Renames(current, previous, added, removed), Renames(previous, current, removed, added);
    StrictlyComparable(a);
    StrictlyComparable(b);
    forall pair
      ensures pair in a <==> pair in Swap(b)
    {
      SwapIn(b, pair);
      RenamePairSwaps(previous, current, removed, added, pair.Swapped());
    }
    SwapNoDuplicates(b);
    SameElementsPermute(a, Swap(b));
  }

  lemma SwapNoDuplicates(pairs: seq<FilePair>)
    requires NoDuplicates(pairs)
    ensures NoDuplicates(Swap(pairs))
  {
    forall i, j | 0 <= i < j < |pairs|
      ensures Swap(pairs)[i] != Swap(pairs)[j]
    {
      assert pairs[i] != pairs[j];
    }
  }

  /** Each side of a rename is the only candidate for the other. */
  lemma RenamePairSwaps(previous: Manifest, current: Manifest, removed: Manifest, added: Manifest, pair: FilePair)
    requires Sublist(removed, previous) && Sublist(added, current)
    ensures
      (pair.previous in removed && Renamed(previous, current, pair.previous, added)
       && pair.current == RenameTarget(previous, current, pair.previous, added))
      <==>
      (pair.current in added && Renamed(current, previous, pair.current, removed)
       && pair.previous == RenameTarget(current, previous, pair.current, removed))
  {
    if pair.previous in removed && Renamed(previous, current, pair.previous, added)
       && pair.current == RenameTarget(previous, current, pair.previous, added) {
      TargetUnique(current, previous, added, removed, pair.current, pair.previous);
    }
    if pair.current in added && Renamed(current, previous, pair.current, removed)
       && pair.previous == RenameTarget(current, previous, pair.current, removed) {
      TargetUnique(previous, current, removed, added, pair.previous, pair.current);
    }
  }

  lemma TargetUnique(previous: Manifest, current: Manifest, removed: Manifest, added: Manifest,
                     before: ScannedFile, after: ScannedFile)
    requires Sublist(added, current) && after in added
    requires IsRename(current, previous, after, before)
    ensures Renamed(previous, current, before, added) && RenameTarget(previous, current, before, added) == after
  {
    assert IsRename(previous, current, before, after);
    var target := RenameTarget(previous, current, before, added);
    var i :| 0 <= i < |added| && added[i] == after;
    var j :| 0 <= j < |added| && added[j] == target;
    OnlyOne(added, i, j, before.contentHash.value);
  }

  lemma SwapSides(pairs: seq<FilePair>)
    ensures Befores(Swap(pairs)) == Afters(pairs)
  {
  }

  lemma {:induction false} BeforesOfPermutation(a: seq<FilePair>, b: seq<FilePair>)
    requires multiset(a) == multiset(b)
    ensures multiset(Befores(a)) == multiset(Befores(b))
    decreases |a|
  {
    if a == [] {
      assert |multiset(b)| == |b|;
    } else {
      var last := |a| - 1;
      assert a == a[..last] + [a[last]];
      assert a[last] in multiset(b);
      var k :| 0 <= k < |b| && b[k] == a[last];
      var rest := TakenOut(b, k);
      RemoveOne(multiset(a[..last]), multiset(rest), a[last]);
      BeforesOfPermutation(a[..last], rest);
      BeforesAppend(a[..last], [a[last]]);
      BeforesOne(a[last]);
    }
  }

  lemma RemoveOne<T>(a: multiset<T>, b: multiset<T>, x: T)
    requires a + multiset{x} == b + multiset{x}
    ensures a == b
  {
    assert a == a + multiset{x} - multiset{x} && b == b + multiset{x} - multiset{x};
  }

  /** One pair taken out of a list. */
  lemma TakenOut(b: seq<FilePair>, k: nat) returns (rest: seq<FilePair>)
    requires k < |b|
    ensures multiset(b) == multiset(rest) + multiset{b[k]}
    ensures multiset(Befores(b)) == multiset(Befores(rest)) + multiset{b[k].previous}
  {
    hide Befores;
    rest := b[..k] + b[k + 1..];
    assert b == b[..k] + ([b[k]] + b[k + 1..]);
    BeforesAppend(b[..k], b[k + 1..]);
    BeforesAppend(b[..k], [b[k]] + b[k + 1..]);
    BeforesAppend([b[k]], b[k + 1..]);
    BeforesOne(b[k]);
  }

  /** The unchanged, modified, added and renamed files are the current manifest. */
  lemma CurrentPartition(previous: Manifest, current: Manifest)
    requires IsManifest(previous) && IsManifest(current)
    ensures var delta := DeltaOf(previous, current);
      multiset(current)
      == multiset(Afters(Common(previous, current, true))) + multiset(Afters(delta.modified)) + multiset(delta.added)
         + multiset(Afters(delta.renamed))
  {
    hide DeltaOf;
    var delta, back := DeltaOf(previous, current), DeltaOf(current, previous);
    PreviousPartition(current, previous);
    SwapSymmetry(previous, current);
    CommonSwaps(previous, current, true);
    SwapSides(Common(previous, current, true));
    SwapSides(delta.modified);
    SwapSides(delta.renamed);
    BeforesOfPermutation(back.renamed, Swap(delta.renamed));
  }

  /** Every reported rename joins two files at different paths whose hash no other file has. */
  lemma RenamesAreUnique(previous: Manifest, current: Manifest, pair: FilePair)
    requires IsManifest(previous) && IsManifest(current) && pair in DeltaOf(previous, current).renamed
    ensures pair.previous in previous && pair.current in current && pair.previous.relative != pair.current.relative
    ensures pair.previous.contentHash.Some? && pair.previous.contentHash == pair.current.contentHash
    ensures HashCount(previous, pair.previous.contentHash.value) == 1
    ensures HashCount(current, pair.previous.contentHash.value) == 1
  {
    var removed, added := Absent(previous, current), Absent(current, previous);
    AbsentSorted(previous, current);
    AbsentSublist(previous, current);
    AbsentSublist(current, previous);
    RenamesAre(previous, current, removed, added);
    assert HasPath(current, pair.current.relative);
  }
}
