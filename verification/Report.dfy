/** The evidence a scan reports.  One char of a text stands for one byte of its UTF-8 form. */
module Report {
  import opened Wrappers
  import opened Ordering

  datatype FileVersion = FileVersion(modifiedNs: Option<nat>, changedNs: Option<nat>, identity: Option<(nat, nat)>)

  datatype ScannedFile = ScannedFile(relative: string, bytes: nat, contentHash: Option<string>, version: FileVersion)

  datatype IgnoreSourceKind = GitGlobal | GitExclude | GitIgnore | DotIgnore | Custom | Explicit | Override

  datatype IgnoreSource = IgnoreSource(kind: IgnoreSourceKind, location: string, contentHash: string)

  datatype ScanTermination = MaxEntries | MaxTotalBytes | Timeout | Cancelled

  /** `optional_equal`: evidence missing on one side is no difference. */
  predicate OptionalEqual<T(==)>(previous: Option<T>, current: Option<T>) {
    previous.Some? && current.Some? ==> previous == current
  }

  /** `reusable`: the modification times are known and nothing known differs. */
  predicate Reusable(previous: FileVersion, current: FileVersion) {
    && previous.modifiedNs.Some? && previous.modifiedNs == current.modifiedNs
    && OptionalEqual(previous.changedNs, current.changedNs)
    && OptionalEqual(previous.identity, current.identity)
  }

  /** Nothing tells the versions apart: both modification times are known and equal, and change times and identities
      are equal where both are known. */
  ghost predicate Unmoved(previous: FileVersion, current: FileVersion) {
    && previous.modifiedNs != None && current.modifiedNs == previous.modifiedNs
    && (forall a, b | previous.changedNs == Some(a) && current.changedNs == Some(b) :: a == b)
    && (forall a, b | previous.identity == Some(a) && current.identity == Some(b) :: a == b)
  }

  lemma ReusableMeans(previous: FileVersion, current: FileVersion)
    ensures Reusable(previous, current) <==> Unmoved(previous, current)
  {
    assert previous.changedNs.Some? ==> previous.changedNs == Some(previous.changedNs.value);
    assert current.changedNs.Some? ==> current.changedNs == Some(current.changedNs.value);
    assert previous.identity.Some? ==> previous.identity == Some(previous.identity.value);
    assert current.identity.Some? ==> current.identity == Some(current.identity.value);
  }

  /** Files sort by their relative path. */
  predicate FileLess(a: ScannedFile, b: ScannedFile) { TextLess(a.relative, b.relative) }

  lemma FileOrder()
    ensures WeakOrder(FileLess)
  {
    TextStrictTotal();
  }
}
