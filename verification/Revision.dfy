/** The byte stream behind a revision: it determines the evidence, and discovery order does not show. */
module Revision {
  import opened Wrappers
  import opened Report
  import opened Ordering
  import Sha256

  const NUL: char := '\U{0000}'
  const SOURCE_END: char := '\U{00FE}'
  const FILE_END: char := '\U{00FF}'

  function KindByte(kind: IgnoreSourceKind): char {
    match kind
    case GitGlobal => 1 as char
    case GitExclude => 2 as char
    case GitIgnore => 3 as char
    case DotIgnore => 4 as char
    case Custom => 5 as char
    case Explicit => 6 as char
    case Override => 7 as char
  }

  function TerminationByte(termination: ScanTermination): char {
    match termination
    case MaxEntries => 1 as char
    case MaxTotalBytes => 2 as char
    case Timeout => 3 as char
    case Cancelled => 4 as char
  }

  const KINDS: seq<IgnoreSourceKind> := [GitGlobal, GitExclude, GitIgnore, DotIgnore, Custom, Explicit, Override]

  const TERMINATIONS: seq<ScanTermination> := [MaxEntries, MaxTotalBytes, Timeout, Cancelled]

  /** The tags number the kinds of sources and the reasons to stop from one on, in their order. */
  lemma TagsInOrder()
    ensures forall kind :: 1 <= KindByte(kind) as int <= |KINDS| && KINDS[KindByte(kind) as int - 1] == kind
    ensures forall reason ::
      1 <= TerminationByte(reason) as int <= |TERMINATIONS| && TERMINATIONS[TerminationByte(reason) as int - 1] == reason
  {
  }

  /** `u64::to_le_bytes`: the `count` low bytes. */
  function LittleEndian(n: nat, count: nat): (b: string)
    ensures |b| == count
  {
    if count == 0 then "" else [(n % 256) as char] + LittleEndian(n / 256, count - 1)
  }

  /** The number that bytes spell, the least significant first. */
  ghost function Spelled(b: string): nat { if b == "" then 0 else b[0] as nat + 256 * Spelled(b[1..]) }

  /** The bytes of a number that fits read back as the number. */
  lemma {:induction false} LittleEndianReads(n: nat, count: nat)
    requires n < Sha256.Pow256(count)
    ensures Spelled(LittleEndian(n, count)) == n
  {
    if count > 0 {
      LittleEndianReads(n / 256, count - 1);
      var b := LittleEndian(n, count);
      assert b[0] as nat == n % 256 && b[1..] == LittleEndian(n / 256, count - 1);
    }
  }

  function EncodeSource(source: IgnoreSource): string {
    [KindByte(source.kind), NUL] + source.location + [NUL] + source.contentHash + [SOURCE_END]
  }

  function HashText(hash: Option<string>): string { if hash.Some? then hash.value else "" }

  /** `write_selected_file`. */
  function EncodeFile(file: ScannedFile): string {
    file.relative + [NUL] + LittleEndian(file.bytes, 8) + [NUL] + HashText(file.contentHash) + [FILE_END]
  }

  function EncodeSources(sources: seq<IgnoreSource>): string {
    if sources == [] then "" else EncodeSource(sources[0]) + EncodeSources(sources[1..])
  }

  function EncodeFiles(files: seq<ScannedFile>): string {
    if files == [] then "" else EncodeFile(files[0]) + EncodeFiles(files[1..])
  }

  function Trailer(portable: bool, termination: Option<ScanTermination>): string {
    [if portable then 1 as char else NUL]
    + (if termination.Some? then [TerminationByte(termination.value)] else "")
  }

  datatype Evidence = Evidence(
    sources: seq<IgnoreSource>, files: seq<ScannedFile>, portable: bool, termination: Option<ScanTermination>)

  const HEADER := "scan-revision" + [1 as char]

  /** Everything that is fed to the hash. */
  function Encode(e: Evidence): string { HEADER + Body(e) }

  function Body(e: Evidence): string {
    EncodeSources(e.sources) + EncodeFiles(e.files) + Trailer(e.portable, e.termination)
  }

  /** The bytes of the encoding, written out. */
  lemma LayoutIs(e: Evidence)
    ensures Encode(e) == "scan-revision" + [1 as char] + EncodeSources(e.sources) + EncodeFiles(e.files)
      + [if e.portable then 1 as char else 0 as char]
      + (match e.termination case None => "" case Some(reason) => [TerminationByte(reason)])
    ensures forall s | s in e.sources ::
      EncodeSource(s) == [KindByte(s.kind), 0 as char] + s.location + [0 as char] + s.contentHash + [0xFE as char]
    ensures forall f | f in e.files ::
      EncodeFile(f) == f.relative + [0 as char] + LittleEndian(f.bytes, 8) + [0 as char]
        + (match f.contentHash case None => "" case Some(hash) => hash) + [0xFF as char]
  {
  }

  // Injectivity --------------------------------------------------------------------------------

  /** Texts as reports hold them: UTF-8 without NUL, hashes as `Sha256.Digest` writes them. */
  predicate PlainText(text: string) { NUL !in text && forall c | c in text :: c < SOURCE_END }

  predicate HashShaped(hash: string) { |hash| == 71 && PlainText(hash) }

  predicate GoodSource(source: IgnoreSource) { PlainText(source.location) && HashShaped(source.contentHash) }

  predicate GoodFile(file: ScannedFile) {
    && PlainText(file.relative)
    && file.bytes < 0x1_0000_0000_0000_0000
    && (file.contentHash.Some? ==> HashShaped(file.contentHash.value))
  }

  predicate Good(e: Evidence) {
    (forall s | s in e.sources :: GoodSource(s)) && (forall f | f in e.files :: GoodFile(f))
  }

  lemma DigestByte(c: char)
    requires c in "sha:0123456789bcdef"
    ensures NUL < c < SOURCE_END
  {
    var i :| 0 <= i < |"sha:0123456789bcdef"| && "sha:0123456789bcdef"[i] == c;
    assert forall j | 0 <= j < |"sha:0123456789bcdef"| :: NUL < "sha:0123456789bcdef"[j] < SOURCE_END;
  }

  /** The fixed-length hashes are what `Sha256` writes. */
  lemma DigestIsHashShaped(message: seq<Sha256.byte>)
    ensures HashShaped(Sha256.Digest(message))
  {
    hide Sha256.Digest;
    var text := Sha256.Digest(message);
    forall c | c in text
      ensures NUL < c < SOURCE_END
    {
      DigestByte(c);
    }
  }

  /** A NUL-free text ends at the first NUL. */
  lemma {:induction false} UntilNul(a: string, r: string, b: string, s: string)
    requires NUL !in a && NUL !in b && a + [NUL] + r == b + [NUL] + s
    ensures a == b && r == s
  {
    var x, y := a + [NUL] + r, b + [NUL] + s;
    assert x[0] == y[0];
    assert (a != "" ==> a[0] in a) && (b != "" ==> b[0] in b);
    if a == "" || b == "" {
      assert a == b;
      assert x[1..] == r && y[1..] == s;
    } else {
      assert x[1..] == a[1..] + [NUL] + r && y[1..] == b[1..] + [NUL] + s;
      UntilNul(a[1..], r, b[1..], s);
      assert a == [a[0]] + a[1..] && b == [b[0]] + b[1..];
    }
  }

  lemma SameLength(a: string, r: string, b: string, s: string)
    requires |a| == |b| && a + r == b + s
    ensures a == b && r == s
  {
    assert (a + r)[..|a|] == a && (b + s)[..|a|] == b;
    assert (a + r)[|a|..] == r && (b + s)[|a|..] == s;
  }

  lemma {:induction false} LittleEndianInjective(m: nat, n: nat, count: nat, bound: nat)
    requires bound == Sha256.Pow256(count) && m < bound && n < bound
    requires LittleEndian(m, count) == LittleEndian(n, count)
    ensures m == n
  {
    if count > 0 {
      var a, b := LittleEndian(m, count), LittleEndian(n, count);
      assert a[0] == b[0] && a[1..] == LittleEndian(m / 256, count - 1) && b[1..] == LittleEndian(n / 256, count - 1);
      LittleEndianInjective(m / 256, n / 256, count - 1, Sha256.Pow256(count - 1));
    }
  }

  /** The first source can be read off. */
  lemma SourcePeels(s: IgnoreSource, r: string, t: IgnoreSource, q: string)
    requires GoodSource(s) && GoodSource(t) && EncodeSource(s) + r == EncodeSource(t) + q
    ensures s == t && r == q
  {
    var sr, tr := s.contentHash + [SOURCE_END] + r, t.contentHash + [SOURCE_END] + q;
    assert EncodeSource(s) + r == [KindByte(s.kind), NUL] + (s.location + [NUL] + sr);
    assert EncodeSource(t) + q == [KindByte(t.kind), NUL] + (t.location + [NUL] + tr);
    SameLength([KindByte(s.kind), NUL], s.location + [NUL] + sr, [KindByte(t.kind), NUL], t.location + [NUL] + tr);
    assert [KindByte(s.kind), NUL][0] == [KindByte(t.kind), NUL][0];
    UntilNul(s.location, sr, t.location, tr);
    SameLength(s.contentHash + [SOURCE_END], r, t.contentHash + [SOURCE_END], q);
    SameLength(s.contentHash, [SOURCE_END], t.contentHash, [SOURCE_END]);
  }

  /** What follows the path of a file. */
  function FileRest(f: ScannedFile): string {
    LittleEndian(f.bytes, 8) + [NUL] + HashText(f.contentHash) + [FILE_END]
  }

  /** The first file can be read off. */
  lemma FilePeels(f: ScannedFile, r: string, g: ScannedFile, q: string)
    requires GoodFile(f) && GoodFile(g) && EncodeFile(f) + r == EncodeFile(g) + q
    ensures f.relative == g.relative && f.bytes == g.bytes && f.contentHash == g.contentHash && r == q
  {
    assert EncodeFile(f) + r == f.relative + [NUL] + (FileRest(f) + r);
    assert EncodeFile(g) + q == g.relative + [NUL] + (FileRest(g) + q);
    UntilNul(f.relative, FileRest(f) + r, g.relative, FileRest(g) + q);
    FileRestPeels(f, r, g, q);
  }

  lemma FileRestPeels(f: ScannedFile, r: string, g: ScannedFile, q: string)
    requires GoodFile(f) && GoodFile(g) && FileRest(f) + r == FileRest(g) + q
    ensures f.bytes == g.bytes && f.contentHash == g.contentHash && r == q
  {
    hide LittleEndian;
    var fs, gs := HashText(f.contentHash) + [FILE_END] + r, HashText(g.contentHash) + [FILE_END] + q;
    assert FileRest(f) + r == LittleEndian(f.bytes, 8) + ([NUL] + fs);
    assert FileRest(g) + q == LittleEndian(g.bytes, 8) + ([NUL] + gs);
    SameLength(LittleEndian(f.bytes, 8), [NUL] + fs, LittleEndian(g.bytes, 8), [NUL] + gs);
    EightBytes(f.bytes, g.bytes);
    SameLength([NUL], fs, [NUL], gs);
    HashPeels(f.contentHash, r, g.contentHash, q);
  }

  lemma HashPeels(f: Option<string>, r: string, g: Option<string>, q: string)
    requires (f.Some? ==> HashShaped(f.value)) && (g.Some? ==> HashShaped(g.value))
    requires HashText(f) + [FILE_END] + r == HashText(g) + [FILE_END] + q
    ensures f == g && r == q
  {
    var fh, gh := HashText(f), HashText(g);
    assert (fh + [FILE_END] + r)[0] == (gh + [FILE_END] + q)[0];
    if fh != "" { assert fh[0] in fh; }
    if gh != "" { assert gh[0] in gh; }
    SameLength(fh + [FILE_END], r, gh + [FILE_END], q);
    SameLength(fh, [FILE_END], gh, [FILE_END]);
  }

  lemma EightBytes(m: nat, n: nat)
    requires m < 0x1_0000_0000_0000_0000 && n < 0x1_0000_0000_0000_0000
    requires LittleEndian(m, 8) == LittleEndian(n, 8)
    ensures m == n
  {
    assert Sha256.Pow256(4) == 0x1_0000_0000;
    assert Sha256.Pow256(8) == 0x1_0000_0000_0000_0000;
    LittleEndianInjective(m, n, 8, Sha256.Pow256(8));
  }

  /** A file never reads as a source, though neither carries a tag. */
  lemma SourceIsNoFile(s: IgnoreSource, r: string, f: ScannedFile, q: string)
    requires GoodSource(s) && GoodFile(f)
    ensures EncodeSource(s) + r != EncodeFile(f) + q
  {
    if EncodeSource(s) + r == EncodeFile(f) + q {
      var kind := [KindByte(s.kind)];
      var sr := s.contentHash + [SOURCE_END] + r;
      assert EncodeSource(s) + r == kind + [NUL] + (s.location + [NUL] + sr);
      assert EncodeFile(f) + q == f.relative + [NUL] + (FileRest(f) + q);
      UntilNul(kind, s.location + [NUL] + sr, f.relative, FileRest(f) + q);
      BodiesDiffer(s, r, f, q);
    }
  }

  /** Behind the first NUL: location and hash against size and hash. */
  lemma BodiesDiffer(s: IgnoreSource, r: string, f: ScannedFile, q: string)
    requires GoodSource(s) && GoodFile(f)
    ensures s.location + [NUL] + (s.contentHash + [SOURCE_END] + r) != FileRest(f) + q
  {
    var x, y := s.location + [NUL] + (s.contentHash + [SOURCE_END] + r), FileRest(f) + q;
    var n := |s.location|;
    assert x[n] == NUL && y[8] == NUL;
    assert forall i | 0 <= i < 71 :: x[n + 1 + i] == s.contentHash[i];
    assert x[n + 72] == SOURCE_END;
    if n > 8 {
      assert x[8] == s.location[8] && s.location[8] in s.location;
    } else if n < 8 {
      assert x[8] == s.contentHash[8 - n - 1] && s.contentHash[8 - n - 1] in s.contentHash;
    } else if f.contentHash.None? {
      assert y[9] == FILE_END && x[9] == s.contentHash[0] && s.contentHash[0] in s.contentHash;
    } else {
      assert y[9 + 71] == FILE_END && x[9 + 71] == SOURCE_END;
    }
  }

  function PeelFile(e: Evidence): (rest: Evidence)
    requires e.sources == [] && e.files != []
    ensures rest == e.(files := e.files[1..])
    ensures Body(e) == EncodeFile(e.files[0]) + Body(rest)
    ensures Good(e) ==> GoodFile(e.files[0]) && Good(rest)
  {
    Associate(EncodeFile(e.files[0]), EncodeFiles(e.files[1..]), Trailer(e.portable, e.termination));
    e.(files := e.files[1..])
  }

  lemma Associate(a: string, b: string, c: string)
    ensures "" + (a + b) + c == a + ("" + b + c) && (a + b) + c == a + (b + c)
  {
  }

  lemma FilesAreLong(e: Evidence)
    requires e.sources == []
    ensures |Body(e)| <= 2 <==> e.files == []
  {
    if e.files != [] {
      var rest := PeelFile(e);
      assert |EncodeFile(e.files[0])| > 2;
    }
  }

  lemma {:induction false} FilesDecode(a: Evidence, b: Evidence)
    requires Good(a) && Good(b) && a.sources == [] && b.sources == [] && Body(a) == Body(b)
    ensures SameEvidence(a, b)
    decreases |a.files|
  {
    FilesAreLong(a);
    FilesAreLong(b);
    if a.files == [] {
      assert "" + "" + Trailer(a.portable, a.termination) == Trailer(a.portable, a.termination);
      assert "" + "" + Trailer(b.portable, b.termination) == Trailer(b.portable, b.termination);
      TrailerDecodes(a.portable, a.termination, b.portable, b.termination);
    } else {
      var a', b' := PeelFile(a), PeelFile(b);
      FilePeels(a.files[0], Body(a'), b.files[0], Body(b'));
      FilesDecode(a', b');
      forall i | 0 <= i < |a.files|
        ensures a.files[i].relative == b.files[i].relative && a.files[i].bytes == b.files[i].bytes
        ensures a.files[i].contentHash == b.files[i].contentHash
      {
        if i > 0 { assert a.files[i] == a'.files[i - 1] && b.files[i] == b'.files[i - 1]; }
      }
    }
  }

  lemma TrailerDecodes(p: bool, s: Option<ScanTermination>, q: bool, t: Option<ScanTermination>)
    requires Trailer(p, s) == Trailer(q, t)
    ensures p == q && s == t
  {
    assert Trailer(p, s)[0] == Trailer(q, t)[0];
    assert |Trailer(p, s)| == |Trailer(q, t)|;
    if s.Some? { assert Trailer(p, s)[1] == Trailer(q, t)[1]; }
  }

  /** Equal in everything the revision covers. */
  ghost predicate SameEvidence(a: Evidence, b: Evidence) {
    && a.sources == b.sources && a.portable == b.portable && a.termination == b.termination
    && |a.files| == |b.files|
    && forall i | 0 <= i < |a.files| ::
         && a.files[i].relative == b.files[i].relative
         && a.files[i].bytes == b.files[i].bytes
         && a.files[i].contentHash == b.files[i].contentHash
  }

  lemma {:induction false} BodyDecodes(a: Evidence, b: Evidence)
    requires Good(a) && Good(b) && Body(a) == Body(b)
    ensures SameEvidence(a, b)
    decreases |a.sources|
  {
    if a.sources == [] && b.sources == [] {
      FilesDecode(a, b);
    } else if a.sources == [] {
      SourceFirst(b, a);
    } else if b.sources == [] {
      SourceFirst(a, b);
    } else {
      var a', b' := PeelSource(a), PeelSource(b);
      SourcePeels(a.sources[0], Body(a'), b.sources[0], Body(b'));
      BodyDecodes(a', b');
      assert a.sources == [a.sources[0]] + a.sources[1..] && b.sources == [b.sources[0]] + b.sources[1..];
    }
  }

  function PeelSource(e: Evidence): (rest: Evidence)
    requires e.sources != []
    ensures Body(e) == EncodeSource(e.sources[0]) + Body(rest)
    ensures Good(e) ==> GoodSource(e.sources[0]) && Good(rest)
  {
    var rest := e.(sources := e.sources[1..]);
    assert Body(e) == EncodeSource(e.sources[0]) + Body(rest);
    rest
  }

  lemma SourceFirst(a: Evidence, b: Evidence)
    requires Good(a) && Good(b) && a.sources != [] && b.sources == []
    ensures Body(a) != Body(b)
  {
    hide Body, EncodeSource, EncodeFile, FileRest;
    var rest := PeelSource(a);
    SourceLong(a.sources[0]);
    FilesAreLong(b);
    if b.files != [] {
      SourceIsNoFile(a.sources[0], Body(rest), b.files[0], Body(PeelFile(b)));
    }
  }

  lemma SourceLong(s: IgnoreSource)
    ensures |EncodeSource(s)| > 2
  {
  }

  /** Different evidence is different input to the hash, though sources and files carry no count or tag. */
  lemma EncodingInjective(a: Evidence, b: Evidence)
    requires Good(a) && Good(b)
    ensures Encode(a) == Encode(b) <==> SameEvidence(a, b)
  {
    if Encode(a) == Encode(b) {
      SameLength(HEADER, Body(a), HEADER, Body(b));
      BodyDecodes(a, b);
    }
    if SameEvidence(a, b) { SameFilesEncode(a.files, b.files); }
  }

  lemma {:induction false} SameFilesEncode(a: seq<ScannedFile>, b: seq<ScannedFile>)
    requires |a| == |b|
    requires forall i | 0 <= i < |a| ::
      a[i].relative == b[i].relative && a[i].bytes == b[i].bytes && a[i].contentHash == b[i].contentHash
    ensures EncodeFiles(a) == EncodeFiles(b)
  {
    if a != [] { SameFilesEncode(a[1..], b[1..]); }
  }

  // Discovery order ----------------------------------------------------------------------------

  /** The sort keys of sources and files. */
  predicate SourceLess(a: IgnoreSource, b: IgnoreSource) {
    || KindByte(a.kind) < KindByte(b.kind)
    || (a.kind == b.kind && TextLess(a.location, b.location))
    || (a.kind == b.kind && a.location == b.location && TextLess(a.contentHash, b.contentHash))
  }

  lemma SourceOrder()
    ensures StrictTotal(SourceLess) && WeakOrder(SourceLess)
  {
    TextStrictTotal();
    assert forall k, l: IgnoreSourceKind :: KindByte(k) == KindByte(l) ==> k == l;
  }

  /** `sort_report_evidence`, as far as the revision sees it. */
  function Sorted(e: Evidence): Evidence {
    e.(sources := Dedup(Sort(SourceLess, e.sources)), files := Sort(FileLess, e.files))
  }

  /** The same evidence found in any order, sources found more than once, gives the same revision input. */
  lemma DiscoveryOrderIrrelevant(a: Evidence, b: Evidence)
    requires forall s :: s in a.sources <==> s in b.sources
    requires multiset(a.files) == multiset(b.files) && a.portable == b.portable && a.termination == b.termination
    requires forall f, g | f in a.files && g in a.files && f.relative == g.relative :: f == g
    ensures Encode(Sorted(a)) == Encode(Sorted(b))
  {
    SourcesSorted(a.sources, b.sources);
    FilesSorted(a.files, b.files);
  }

  lemma SourcesSorted(a: seq<IgnoreSource>, b: seq<IgnoreSource>)
    requires forall s :: s in a <==> s in b
    ensures Dedup(Sort(SourceLess, a)) == Dedup(Sort(SourceLess, b))
  {
    hide SourceLess;
    SourceOrder();
    var x, y := Sort(SourceLess, a), Sort(SourceLess, b);
    SortSorts(SourceLess, a);
    SortSorts(SourceLess, b);
    DedupStrict(SourceLess, x);
    DedupStrict(SourceLess, y);
    forall s
      ensures s in Dedup(x) <==> s in Dedup(y)
    {
      assert s in x <==> s in multiset(x);
      assert s in y <==> s in multiset(y);
      assert s in multiset(a) <==> s in a;
      assert s in multiset(b) <==> s in b;
    }
    StrictUnique(SourceLess, Dedup(x), Dedup(y));
  }

  lemma FilesSorted(a: seq<ScannedFile>, b: seq<ScannedFile>)
    requires multiset(a) == multiset(b)
    requires forall f, g | f in a && g in a && f.relative == g.relative :: f == g
    ensures Sort(FileLess, a) == Sort(FileLess, b)
  {
    FileOrder();
    TextStrictTotal();
    var x, y := Sort(FileLess, a), Sort(FileLess, b);
    SortSorts(FileLess, a);
    SortSorts(FileLess, b);
    forall f, g | f in x && g in x && f != g
      ensures FileLess(f, g) || FileLess(g, f)
    {
      assert f in multiset(x) && g in multiset(x);
      assert f in a && g in a;
    }
    SortedUnique(FileLess, x, y);
  }

  // The builder that streams the evidence into the hash -----------------------------------------

  function Bytes(text: string): (b: seq<Sha256.byte>)
    ensures |b| == |text|
  {
    seq(|text|, i requires 0 <= i < |text| => (text[i] as int % 256) as Sha256.byte)
  }

  lemma BytesAppend(a: string, b: string)
    ensures Bytes(a + b) == Bytes(a) + Bytes(b)
  {
  }

  predicate ByteText(text: string) { forall c | c in text :: c <= FILE_END }

  lemma BytesInjective(a: string, b: string)
    requires ByteText(a) && ByteText(b) && Bytes(a) == Bytes(b)
    ensures a == b
  {
    forall i | 0 <= i < |a|
      ensures a[i] == b[i]
    {
      assert Bytes(a)[i] == Bytes(b)[i] && a[i] in a && b[i] in b;
    }
  }

  lemma {:induction false} EncodedBytes(e: Evidence)
    requires Good(e)
    ensures ByteText(Body(e))
    decreases |e.sources| + |e.files|
  {
    if e.sources != [] {
      hide Body, ByteText, EncodeSource, GoodSource;
      var rest := PeelSource(e);
      EncodedBytes(rest);
      SourceBytes(e.sources[0]);
      ByteTextAppend(EncodeSource(e.sources[0]), Body(rest));
    } else if e.files != [] {
      hide Body, ByteText, EncodeFile, GoodFile;
      var rest := PeelFile(e);
      EncodedBytes(rest);
      FileBytes(e.files[0]);
      ByteTextAppend(EncodeFile(e.files[0]), Body(rest));
    }
  }

  lemma ByteTextAppend(a: string, b: string)
    requires ByteText(a) && ByteText(b)
    ensures ByteText(a + b)
  {
  }

  lemma SourceBytes(source: IgnoreSource)
    requires GoodSource(source)
    ensures ByteText(EncodeSource(source))
  {
  }

  lemma FileBytes(file: ScannedFile)
    requires GoodFile(file)
    ensures ByteText(EncodeFile(file))
  {
    LittleEndianBytes(file.bytes, 8);
  }

  lemma {:induction false} LittleEndianBytes(n: nat, count: nat)
    ensures ByteText(LittleEndian(n, count))
  {
    if count > 0 { LittleEndianBytes(n / 256, count - 1); }
  }

  /** The bytes hashed for a revision determine the sorted evidence: two revisions are equal exactly for
      equal evidence or a SHA-256 collision. */
  lemma RevisionDetermines(a: Evidence, b: Evidence)
    requires Good(a) && Good(b)
    ensures Bytes(Encode(a)) == Bytes(Encode(b)) <==> SameEvidence(a, b)
  {
    hide Encode, SameEvidence, Bytes;
    EncodingInjective(a, b);
    EncodedText(a);
    EncodedText(b);
    if Bytes(Encode(a)) == Bytes(Encode(b)) { BytesInjective(Encode(a), Encode(b)); }
  }

  lemma EncodedText(e: Evidence)
    requires Good(e)
    ensures ByteText(Encode(e))
  {
    EncodedBytes(e);
    assert ByteText(HEADER) by {
      forall i | 0 <= i < |HEADER| ensures HEADER[i] <= FILE_END { HeaderByte(i); }
    }
  }

  lemma HeaderByte(i: nat)
    requires i < |HEADER|
    ensures HEADER[i] <= FILE_END
  {
  }

  class RevisionBuilder {
    const hasher: Sha256.FingerprintHasher
    /** Everything written so far. */
    ghost var written: string

    ghost predicate Valid()
      reads this, hasher, hasher.state, hasher.buffer
    {
      hasher.Valid() && hasher.message == Bytes(written)
    }

    method Write(text: string)
      requires Valid()
      modifies this, hasher, hasher.state, hasher.buffer
      ensures Valid() && written == old(written) + text
    {
      hide Sha256.FingerprintHasher.Valid, Bytes;
      hasher.Write(Bytes(text));
      BytesAppend(written, text);
      written := written + text;
    }

    constructor ()
      ensures Valid() && written == ""
      ensures fresh(this) && fresh(hasher) && fresh(hasher.state) && fresh(hasher.buffer)
    {
      hasher := new Sha256.FingerprintHasher();
      written := "";
    }

    /** The rest of `new`: the header and the ignore sources. */
    method WriteSources(sources: seq<IgnoreSource>)
      requires Valid() && written == ""
      modifies this, hasher, hasher.state, hasher.buffer
      ensures Valid() && written == HEADER + EncodeSources(sources)
    {
      hide Valid, EncodeSources, EncodeSource;
      Write(HEADER);
      NoSources();
      for i := 0 to |sources|
        invariant Valid() && written == HEADER + EncodeSources(sources[..i])
      {
        WriteSource(sources[i]);
        EncodeSourcesSnoc(sources, i);
        Regroup3(HEADER, EncodeSources(sources[..i]), EncodeSource(sources[i]));
      }
      assert sources[..|sources|] == sources;
    }

    method WriteSource(source: IgnoreSource)
      requires Valid()
      modifies this, hasher, hasher.state, hasher.buffer
      ensures Valid() && written == old(written) + EncodeSource(source)
    {
      hide Valid;
      Write([KindByte(source.kind)]);
      Write([NUL]);
      Write(source.location);
      Write([NUL]);
      Write(source.contentHash);
      Write([SOURCE_END]);
    }

    /** `push`. */
    method Push(file: ScannedFile)
      requires Valid()
      modifies this, hasher, hasher.state, hasher.buffer
      ensures Valid() && written == old(written) + EncodeFile(file)
    {
      hide Valid;
      Write(file.relative);
      Write([NUL]);
      Write(LittleEndian(file.bytes, 8));
      Write([NUL]);
      Write(HashText(file.contentHash));
      Write([FILE_END]);
    }

    /** `finish`. */
    method Finish(portable: bool, termination: Option<ScanTermination>) returns (revision: string)
      requires Valid()
      modifies this, hasher, hasher.state, hasher.buffer
      ensures revision == Sha256.Digest(Bytes(old(written) + Trailer(portable, termination)))
    {
      hide Sha256.FingerprintHasher.Valid, Bytes, Sha256.Digest;
      Write([if portable then 1 as char else NUL]);
      if termination.Some? {
        Write([TerminationByte(termination.value)]);
      }
      assert written == old(written) + Trailer(portable, termination);
      revision := hasher.Finish();
    }
  }

  lemma {:induction false} EncodeSourcesSnoc(sources: seq<IgnoreSource>, i: nat)
    requires i < |sources|
    ensures EncodeSources(sources[..i + 1]) == EncodeSources(sources[..i]) + EncodeSource(sources[i])
  {
    if i == 0 {
      assert sources[..1] == [sources[0]] && [sources[0]][1..] == [];
    } else {
      EncodeSourcesSnoc(sources[1..], i - 1);
      assert sources[..i + 1][1..] == sources[1..][..i] && sources[..i][1..] == sources[1..][..i - 1];
      Associate(EncodeSource(sources[0]), EncodeSources(sources[1..][..i - 1]), EncodeSource(sources[i]));
    }
  }

  lemma {:induction false} EncodeFilesSnoc(files: seq<ScannedFile>, i: nat)
    requires i < |files|
    ensures EncodeFiles(files[..i + 1]) == EncodeFiles(files[..i]) + EncodeFile(files[i])
  {
    if i == 0 {
      assert files[..1] == [files[0]] && [files[0]][1..] == [];
    } else {
      EncodeFilesSnoc(files[1..], i - 1);
      assert files[..i + 1][1..] == files[1..][..i] && files[..i][1..] == files[1..][..i - 1];
      Associate(EncodeFile(files[0]), EncodeFiles(files[1..][..i - 1]), EncodeFile(files[i]));
    }
  }

  /** `finalize_report`: sorts the evidence and hashes it piece by piece. */
  method FinalizeReport(e: Evidence) returns (revision: string)
    ensures revision == Sha256.Digest(Bytes(Encode(Sorted(e))))
  {
    hide Encode, EncodeFiles, EncodeSources, Trailer, RevisionBuilder.Valid, Sha256.Digest, Bytes, EncodeFile, Sorted;
    var sorted := Sorted(e);
    var builder := new RevisionBuilder();
    builder.WriteSources(sorted.sources);
    NoFiles();
    var start := HEADER + EncodeSources(sorted.sources);
    for i := 0 to |sorted.files|
      invariant fresh(builder) && fresh(builder.hasher) && fresh(builder.hasher.state) && fresh(builder.hasher.buffer)
      invariant builder.Valid() && builder.written == start + EncodeFiles(sorted.files[..i])
    {
      builder.Push(sorted.files[i]);
      EncodeFilesSnoc(sorted.files, i);
      Regroup3(start, EncodeFiles(sorted.files[..i]), EncodeFile(sorted.files[i]));
    }
    assert sorted.files[..|sorted.files|] == sorted.files;
    revision := builder.Finish(sorted.portable, sorted.termination);
    EncodeIs(sorted);
  }

  lemma NoSources()
    ensures EncodeSources([]) == ""
  {
  }

  lemma Regroup3(a: string, b: string, c: string)
    ensures a + b + c == a + (b + c)
  {
  }

  lemma NoFiles()
    ensures EncodeFiles([]) == ""
  {
  }

  lemma EncodeIs(e: Evidence)
    ensures Encode(e) == HEADER + EncodeSources(e.sources) + EncodeFiles(e.files) + Trailer(e.portable, e.termination)
  {
    Regroup(HEADER, EncodeSources(e.sources), EncodeFiles(e.files), Trailer(e.portable, e.termination));
  }

  lemma Regroup(a: string, b: string, c: string, d: string)
    ensures a + (b + c + d) == a + b + c + d
  {
  }
}
