/** Slash-separated paths, their ancestors, and prefix sets collapsed to the topmost members. */
module Paths {
  import opened Wrappers
  import opened Ordering

  /** The first half of `rsplit_once('/')`. */
  function Parent(path: string): (parent: Option<string>)
    ensures parent.Some? ==> |parent.value| < |path| && parent.value + "/" <= path
  {
    if path == "" then None
    else if path[|path| - 1] == '/' then Some(path[..|path| - 1])
    else Parent(path[..|path| - 1])
  }

  /** The last piece of `rsplit('/')`. */
  function Name(path: string): (name: string)
    ensures '/' !in name && |name| <= |path|
  {
    if path == "" || path[|path| - 1] == '/' then ""
    else Name(path[..|path| - 1]) + [path[|path| - 1]]
  }

  /** `rsplit_once` cuts at the last slash. */
  lemma {:induction false} SplitAtLastSlash(path: string)
    ensures match Parent(path)
            case None => path == Name(path)
            case Some(parent) => path == parent + "/" + Name(path)
  {
    if path != "" {
      var init, last := path[..|path| - 1], path[|path| - 1];
      assert path == init + [last];
      if last != '/' {
        SplitAtLastSlash(init);
      }
    }
  }

  /** Every way to cut off a slash-free name is the cut at the last slash. */
  lemma {:induction false} SplitUnique(parent: string, name: string)
    requires '/' !in name
    ensures Parent(parent + "/" + name) == Some(parent) && Name(parent + "/" + name) == name
  {
    var path := parent + "/" + name;
    if name == "" {
      assert path[..|path| - 1] == parent;
    } else {
      var init := name[..|name| - 1];
      assert path[..|path| - 1] == parent + "/" + init && name == init + [name[|name| - 1]];
      assert forall c | c in init :: c in name;
      SplitUnique(parent, init);
    }
  }

  /** `is_same_or_descendant`. */
  predicate IsSameOrDescendant(path: string, prefix: string) {
    || path == prefix
    || (prefix != "" && |path| > |prefix| && path[|prefix|] == '/' && prefix <= path)
  }

  /** `prefix` is on the chain of parents that starts at `path`. */
  predicate Above(prefix: string, path: string)
    decreases |path|
  {
    prefix == path || (Parent(path).Some? && Above(prefix, Parent(path).value))
  }

  /** The parent chain of a path holds exactly its cuts at a slash. */
  lemma {:induction false} AboveIsCut(prefix: string, path: string)
    ensures Above(prefix, path) <==> prefix == path || prefix + "/" <= path
    decreases |path|
  {
    SplitAtLastSlash(path);
    match Parent(path)
    case None =>
      if |prefix| < |path| {
        assert path[|prefix|] == Name(path)[|prefix|];
      }
    case Some(parent) =>
      AboveIsCut(prefix, parent);
      assert path[..|parent|] == parent && path[|parent|] == '/';
      if |parent| < |prefix| < |path| {
        assert path[|prefix|] == Name(path)[|prefix| - |parent| - 1];
      } else if prefix + "/" <= path && |prefix| < |parent| {
        assert prefix + "/" == path[..|prefix| + 1] == parent[..|prefix| + 1];
      } else if prefix + "/" <= path && |prefix| == |parent| {
        assert prefix == path[..|parent|];
      }
  }

  /** The chain of parents and `is_same_or_descendant` differ in one case only: the empty prefix. */
  lemma AboveIsSameOrDescendant(prefix: string, path: string)
    ensures Above(prefix, path) <==>
      IsSameOrDescendant(path, prefix) || (prefix == "" && path != "" && path[0] == '/')
  {
    AboveIsCut(prefix, path);
    if prefix <= path && |path| > |prefix| && path[|prefix|] == '/' {
      assert path[..|prefix| + 1] == prefix + "/";
    }
    if prefix + "/" <= path {
      assert path[..|prefix| + 1] == prefix + "/";
      assert path[..|prefix|] == (prefix + "/")[..|prefix|] == prefix;
    }
  }

  lemma {:induction false} AboveTransitive(a: string, b: string, c: string)
    requires Above(a, b) && Above(b, c)
    ensures Above(a, c)
    decreases |c|
  {
    if b != c { AboveTransitive(a, b, Parent(c).value); }
  }

  lemma {:induction false} AboveShorter(a: string, b: string)
    requires Above(a, b)
    ensures a == b || |a| < |b|
    decreases |b|
  {
    if a != b { AboveShorter(a, Parent(b).value); }
  }

  /** Ancestors sort first. */
  lemma {:induction false} PrefixSortsFirst(a: string, b: string)
    requires a < b
    ensures TextLess(a, b)
  {
    if a != "" {
      assert a[1..] < b[1..];
      PrefixSortsFirst(a[1..], b[1..]);
    }
  }

  lemma AboveSortsFirst(a: string, b: string)
    requires Above(a, b) && a != b
    ensures TextLess(a, b)
  {
    AboveIsCut(a, b);
    assert a <= a + "/" <= b;
    PrefixSortsFirst(a, b);
  }

  ghost predicate Covered(path: string, prefixes: set<string>) {
    exists prefix | prefix in prefixes :: Above(prefix, path)
  }

  ghost predicate SameOrBelow(path: string, prefixes: set<string>) {
    exists prefix | prefix in prefixes :: IsSameOrDescendant(path, prefix)
  }

  /** `path_covered_by_prefixes`: climbs from the path towards its topmost ancestor. */
  method PathCoveredByPrefixes(path: string, prefixes: set<string>) returns (covered: bool)
    ensures covered <==>
      || SameOrBelow(path, prefixes)
      || ("" in prefixes && path != "" && path[0] == '/')
    ensures covered <==> Covered(path, prefixes)
  {
    forall prefix {:trigger Above(prefix, path)} | prefix in prefixes
      ensures Above(prefix, path) <==> IsSameOrDescendant(path, prefix) || (prefix == "" && path != "" && path[0] == '/')
    {
      AboveIsSameOrDescendant(prefix, path);
    }
    if path in prefixes {
      assert Above(path, path);
      return true;
    }
    var rest := path;
    while Parent(rest).Some?
      invariant rest !in prefixes
      invariant Covered(path, prefixes) <==> Covered(rest, prefixes)
      decreases |rest|
    {
      var parent := Parent(rest).value;
      if parent in prefixes {
        assert Above(parent, parent) && Above(parent, rest);
        return true;
      }
      assert forall prefix | prefix in prefixes :: Above(prefix, rest) <==> Above(prefix, parent);
      rest := parent;
    }
    return false;
  }

  /** The prefixes that no other prefix is above. */
  ghost function Topmost(prefixes: set<string>): set<string> {
    set prefix | prefix in prefixes && forall other | other in prefixes && Above(other, prefix) :: other == prefix
  }

  /** Topmost prefixes cover what all prefixes cover, and none covers another. */
  lemma TopmostCovers(prefixes: set<string>)
    ensures forall path :: Covered(path, Topmost(prefixes)) <==> Covered(path, prefixes)
    ensures forall a, b | a in Topmost(prefixes) && b in Topmost(prefixes) && Above(a, b) :: a == b
  {
    forall path | Covered(path, prefixes)
      ensures Covered(path, Topmost(prefixes))
    {
      var prefix :| prefix in prefixes && Above(prefix, path);
      var top := TopmostAbove(prefix, prefixes);
      AboveTransitive(top, prefix, path);
    }
  }

  lemma {:induction false} TopmostAbove(prefix: string, prefixes: set<string>) returns (top: string)
    requires prefix in prefixes
    ensures top in Topmost(prefixes) && Above(top, prefix)
    decreases |prefix|
  {
    if other :| other in prefixes && Above(other, prefix) && other != prefix {
      AboveShorter(other, prefix);
      top := TopmostAbove(other, prefixes);
      AboveTransitive(top, other, prefix);
    } else {
      top := prefix;
    }
  }

  function Elements(items: seq<string>): set<string> {
    set item | item in items
  }

  /** `collapse_path_prefixes`.  The set covers what the prefixes cover and no member covers another. */
  method CollapsePathPrefixes(prefixes: seq<string>) returns (collapsed: set<string>)
    ensures collapsed == Topmost(Elements(prefixes))
    ensures forall path :: Covered(path, collapsed) <==> Covered(path, Elements(prefixes))
    ensures "" !in prefixes ==> forall path :: SameOrBelow(path, collapsed) <==> SameOrBelow(path, Elements(prefixes))
    ensures forall a, b | a in collapsed && b in collapsed && IsSameOrDescendant(b, a) :: a == b
  {
    var sorted := Sort(TextLess, prefixes);
    SortedElements(prefixes, sorted);
    collapsed := {};
    for i := 0 to |sorted|
      invariant collapsed == Topmost(Elements(sorted[..i]))
    {
      // `dedup` has removed the copies; here a copy is covered by the member it equals.
      TopmostCovers(Elements(sorted[..i]));
      var covered := PathCoveredByPrefixes(sorted[i], collapsed);
      TopmostGrows(sorted, i);
      if !covered {
        collapsed := collapsed + {sorted[i]};
      }
    }
    assert sorted[..|sorted|] == sorted;
    TopmostCovers(Elements(prefixes));
    CollapseAgrees(prefixes, collapsed);
  }

  lemma SortedElements(prefixes: seq<string>, sorted: seq<string>)
    requires sorted == Sort(TextLess, prefixes)
    ensures SortedBy(TextLess, sorted) && Elements(sorted) == Elements(prefixes)
  {
    TextStrictTotal();
    SortSorts(TextLess, prefixes);
    forall item
      ensures item in sorted <==> item in prefixes
    {
      assert item in multiset(sorted) <==> item in multiset(prefixes);
    }
  }

  lemma TopmostGrows(sorted: seq<string>, i: nat)
    requires SortedBy(TextLess, sorted) && i < |sorted|
    ensures Topmost(Elements(sorted[..i + 1]))
         == Topmost(Elements(sorted[..i])) + (if Covered(sorted[i], Elements(sorted[..i])) then {} else {sorted[i]})
  {
    var seen, next := Elements(sorted[..i]), sorted[i];
    assert sorted[..i + 1] == sorted[..i] + [next];
    assert Elements(sorted[..i + 1]) == seen + {next};
    forall prefix | prefix in seen && Above(next, prefix)
      ensures prefix == next
    {
      var j :| 0 <= j < i && sorted[j] == prefix;
      if prefix != next { AboveSortsFirst(next, prefix); }
    }
    if next in seen {
      assert Above(next, next);
      assert seen + {next} == seen;
    }
  }

  lemma CollapseAgrees(prefixes: seq<string>, collapsed: set<string>)
    requires collapsed == Topmost(Elements(prefixes))
    requires forall path :: Covered(path, collapsed) <==> Covered(path, Elements(prefixes))
    requires forall a, b | a in collapsed && b in collapsed && Above(a, b) :: a == b
    ensures "" !in prefixes ==> forall path :: SameOrBelow(path, collapsed) <==> SameOrBelow(path, Elements(prefixes))
    ensures forall a, b | a in collapsed && b in collapsed && IsSameOrDescendant(b, a) :: a == b
  {
    forall prefix, path
      ensures IsSameOrDescendant(path, prefix) ==> Above(prefix, path)
      ensures prefix != "" && Above(prefix, path) ==> IsSameOrDescendant(path, prefix)
    {
      AboveIsSameOrDescendant(prefix, path);
    }
    if "" !in prefixes {
      forall path
        ensures SameOrBelow(path, collapsed) <==> Covered(path, collapsed)
        ensures SameOrBelow(path, Elements(prefixes)) <==> Covered(path, Elements(prefixes))
      {
      }
    }
  }
}
