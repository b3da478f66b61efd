/** Lexicographic order, as Rust compares byte strings and paths (component by component). */
module Ordering {

  ghost predicate StrictTotal<T(!new)>(less: (T, T) -> bool) {
    && (forall a :: !less(a, a))
    && (forall a, b :: less(a, b) || a == b || less(b, a))
    && (forall a, b, c :: less(a, b) && less(b, c) ==> less(a, c))
  }

  predicate LexLess<T(==)>(less: (T, T) -> bool, a: seq<T>, b: seq<T>) {
    if b == [] then false
    else if a == [] then true
    else less(a[0], b[0]) || (a[0] == b[0] && LexLess(less, a[1..], b[1..]))
  }

  /** The sequences agree before `k`, where `a` ends or has the smaller element. */
  ghost predicate LessAt<T>(less: (T, T) -> bool, a: seq<T>, b: seq<T>, k: nat) {
    k <= |a| && k < |b| && a[..k] == b[..k] && (k < |a| ==> less(a[k], b[k]))
  }

  /** The order is decided at the first difference, and a proper prefix comes first. */
  lemma {:induction false} LexMeans<T>(less: (T, T) -> bool, a: seq<T>, b: seq<T>)
    ensures LexLess(less, a, b) <==> exists k: nat :: LessAt(less, a, b, k)
  {
    if b != [] && a != [] {
      LexMeans(less, a[1..], b[1..]);
      if less(a[0], b[0]) {
        assert LessAt(less, a, b, 0);
      } else if k: nat :| LessAt(less, a[1..], b[1..], k) && a[0] == b[0] {
        assert a[..k + 1] == [a[0]] + a[1..][..k] && b[..k + 1] == [b[0]] + b[1..][..k];
        assert LessAt(less, a, b, k + 1);
      }
      if k: nat :| LessAt(less, a, b, k) && k > 0 {
        assert a[..k][0] == a[0] && b[..k][0] == b[0];
        assert a[1..][..k - 1] == a[..k][1..] && b[1..][..k - 1] == b[..k][1..];
        assert LessAt(less, a[1..], b[1..], k - 1);
      }
    } else if b != [] {
      assert LessAt(less, a, b, 0);
    }
  }

  lemma {:induction false} LexIrreflexive<T(!new)>(less: (T, T) -> bool, a: seq<T>)
    requires StrictTotal(less)
    ensures !LexLess(less, a, a)
  {
    if a != [] { LexIrreflexive(less, a[1..]); }
  }

  lemma {:induction false} LexConnected<T(!new)>(less: (T, T) -> bool, a: seq<T>, b: seq<T>)
    requires StrictTotal(less)
    ensures LexLess(less, a, b) || a == b || LexLess(less, b, a)
  {
    if a != [] && b != [] && a[0] == b[0] {
      LexConnected(less, a[1..], b[1..]);
      assert a == [a[0]] + a[1..] && b == [b[0]] + b[1..];
    }
  }

  lemma {:induction false} LexTransitive<T(!new)>(less: (T, T) -> bool, a: seq<T>, b: seq<T>, c: seq<T>)
    requires StrictTotal(less) && LexLess(less, a, b) && LexLess(less, b, c)
    ensures LexLess(less, a, c)
  {
    if a != [] && a[0] == b[0] && b[0] == c[0] {
      LexTransitive(less, a[1..], b[1..], c[1..]);
    }
  }

  lemma LexStrictTotal<T(!new)>(less: (T, T) -> bool)
    requires StrictTotal(less)
    ensures StrictTotal((a: seq<T>, b: seq<T>) => LexLess(less, a, b))
  {
    forall a: seq<T> ensures !LexLess(less, a, a) { LexIrreflexive(less, a); }
    forall a: seq<T>, b: seq<T> ensures LexLess(less, a, b) || a == b || LexLess(less, b, a) {
      LexConnected(less, a, b);
    }
    forall a: seq<T>, b: seq<T>, c: seq<T> | LexLess(less, a, b) && LexLess(less, b, c)
      ensures LexLess(less, a, c)
    {
      LexTransitive(less, a, b, c);
    }
  }

  function CharLess(): (char, char) -> bool { (a, b) => a < b }

  /** `str::cmp`: one char stands for one byte. */
  predicate TextLess(a: string, b: string) { LexLess(CharLess(), a, b) }

  lemma TextLessMeans(a: string, b: string)
    ensures TextLess(a, b)
      <==> exists k: nat :: k <= |a| && k < |b| && a[..k] == b[..k] && (k < |a| ==> a[k] < b[k])
  {
    LexMeans(CharLess(), a, b);
    if k: nat :| k <= |a| && k < |b| && a[..k] == b[..k] && (k < |a| ==> a[k] < b[k]) {
      assert LessAt(CharLess(), a, b, k);
    }
  }

  lemma TextStrictTotal()
    ensures StrictTotal(TextLess)
  {
    LexStrictTotal(CharLess());
    var lex := (a: string, b: string) => LexLess(CharLess(), a, b);
    assert forall a, b :: TextLess(a, b) == lex(a, b);
  }

  /** `Path::cmp`: by components. */
  predicate PathLess(a: seq<string>, b: seq<string>) { LexLess(TextLess, a, b) }

  lemma PathLessMeans(a: seq<string>, b: seq<string>)
    ensures PathLess(a, b)
      <==> exists k: nat :: k <= |a| && k < |b| && a[..k] == b[..k] && (k < |a| ==> TextLess(a[k], b[k]))
  {
    LexMeans(TextLess, a, b);
    if k: nat :| k <= |a| && k < |b| && a[..k] == b[..k] && (k < |a| ==> TextLess(a[k], b[k])) {
      assert LessAt(TextLess, a, b, k);
    }
  }

  lemma PathStrictTotal()
    ensures StrictTotal(PathLess)
  {
    TextStrictTotal();
    LexStrictTotal(TextLess);
    var lex := (a: seq<string>, b: seq<string>) => LexLess(TextLess, a, b);
    assert forall a, b :: PathLess(a, b) == lex(a, b);
  }

  // Stable sorting -----------------------------------------------------------------------------

  ghost predicate SortedBy<T>(less: (T, T) -> bool, items: seq<T>) {
    forall i, j | 0 <= i < j < |items| :: !less(items[j], items[i])
  }

  function Insert<T>(less: (T, T) -> bool, item: T, sorted: seq<T>): seq<T> {
    if sorted == [] || !less(sorted[0], item) then [item] + sorted
    else [sorted[0]] + Insert(less, item, sorted[1..])
  }

  /** `sort_by`: a stable sort. */
  function Sort<T>(less: (T, T) -> bool, items: seq<T>): seq<T> {
    if items == [] then [] else Insert(less, items[0], Sort(less, items[1..]))
  }

  ghost predicate WeakOrder<T(!new)>(less: (T, T) -> bool) {
    && (forall a, b :: less(a, b) ==> !less(b, a))
    && (forall a, b, c :: !less(b, a) && !less(c, b) ==> !less(c, a))
  }

  lemma Asymmetric<T(!new)>(less: (T, T) -> bool, a: T, b: T)
    requires WeakOrder(less) && less(a, b)
    ensures !less(b, a)
  {
  }

  lemma NotBefore<T(!new)>(less: (T, T) -> bool, item: T, sorted: seq<T>)
    requires WeakOrder(less) && SortedBy(less, sorted) && sorted != [] && !less(sorted[0], item)
    ensures SortedBy(less, [item] + sorted)
  {
    forall j | 0 <= j < |sorted|
      ensures !less(sorted[j], item)
    {
      assert j == 0 || !less(sorted[j], sorted[0]);
    }
  }

  lemma {:induction false} InsertKeeps<T(!new)>(less: (T, T) -> bool, item: T, sorted: seq<T>)
    requires WeakOrder(less) && SortedBy(less, sorted)
    ensures SortedBy(less, Insert(less, item, sorted))
    ensures multiset(Insert(less, item, sorted)) == multiset{item} + multiset(sorted)
  {
    hide WeakOrder;
    if sorted == [] {
    } else if !less(sorted[0], item) {
      NotBefore(less, item, sorted);
    } else {
      InsertKeeps(less, item, sorted[1..]);
      Asymmetric(less, sorted[0], item);
      var rest := Insert(less, item, sorted[1..]);
      assert sorted == [sorted[0]] + sorted[1..];
      forall j | 0 <= j < |rest|
        ensures !less(rest[j], sorted[0])
      {
        assert rest[j] in multiset(rest);
        assert rest[j] == item || rest[j] in sorted[1..];
      }
    }
  }

  lemma {:induction false} SortSorts<T(!new)>(less: (T, T) -> bool, items: seq<T>)
    requires WeakOrder(less)
    ensures SortedBy(less, Sort(less, items))
    ensures multiset(Sort(less, items)) == multiset(items)
  {
    if items != [] {
      SortSorts(less, items[1..]);
      InsertKeeps(less, items[0], Sort(less, items[1..]));
      assert items == [items[0]] + items[1..];
    }
  }

  lemma SortedHeads<T(!new)>(less: (T, T) -> bool, a: seq<T>, b: seq<T>)
    requires SortedBy(less, a) && SortedBy(less, b) && multiset(a) == multiset(b)
    requires forall x, y | x in a && y in a && x != y :: less(x, y) || less(y, x)
    requires WeakOrder(less) && a != [] && b != []
    ensures a[0] == b[0]
  {
    assert b[0] in multiset(a) && a[0] in multiset(b);
    var i :| 0 <= i < |a| && a[i] == b[0];
    var j :| 0 <= j < |b| && b[j] == a[0];
    assert i == 0 || !less(a[i], a[0]);
    assert j == 0 || !less(b[j], b[0]);
  }

  /** A sorted sequence whose distinct elements are all comparable is determined by its contents. */
  lemma {:induction false} SortedUnique<T(!new)>(less: (T, T) -> bool, a: seq<T>, b: seq<T>)
    requires WeakOrder(less) && SortedBy(less, a) && SortedBy(less, b) && multiset(a) == multiset(b)
    requires forall x, y | x in a && y in a && x != y :: less(x, y) || less(y, x)
    ensures a == b
  {
    hide WeakOrder;
    if a == [] || b == [] {
      assert |multiset(a)| == |a| && |multiset(b)| == |b|;
    } else {
      SortedHeads(less, a, b);
      assert a == [a[0]] + a[1..] && b == [b[0]] + b[1..];
      assert multiset(a[1..]) == multiset(a) - multiset{a[0]};
      assert multiset(b[1..]) == multiset(b) - multiset{b[0]};
      assert forall x | x in a[1..] :: x in a;
      SortedUnique(less, a[1..], b[1..]);
    }
  }

  // Strict order and deduplication --------------------------------------------------------------

  /** `dedup_by` equality: of equal neighbours one stays. */
  function Dedup<T(==)>(items: seq<T>): seq<T> {
    if |items| < 2 then items
    else if items[0] == items[1] then Dedup(items[1..])
    else [items[0]] + Dedup(items[1..])
  }

  ghost predicate Strictly<T(!new)>(less: (T, T) -> bool, items: seq<T>) {
    forall i, j | 0 <= i < j < |items| :: less(items[i], items[j])
  }

  lemma {:induction false} DedupStrict<T(!new)>(less: (T, T) -> bool, items: seq<T>)
    requires StrictTotal(less) && SortedBy(less, items)
    ensures Strictly(less, Dedup(items))
    ensures forall x :: x in Dedup(items) <==> x in items
    ensures items != [] ==> Dedup(items) != [] && Dedup(items)[0] == items[0]
  {
    if |items| >= 2 {
      var rest := items[1..];
      DedupStrict(less, rest);
      assert items == [items[0]] + rest;
      if items[0] != items[1] {
        forall j | 0 <= j < |Dedup(rest)|
          ensures less(items[0], Dedup(rest)[j])
        {
          assert Dedup(rest)[j] in rest;
          var k :| 0 <= k < |rest| && rest[k] == Dedup(rest)[j];
          assert !less(items[k + 1], items[0]) && (k > 0 ==> !less(items[k + 1], items[1]));
        }
      }
    }
  }

  /** A strictly sorted sequence is determined by its elements. */
  lemma {:induction false} StrictUnique<T(!new)>(less: (T, T) -> bool, a: seq<T>, b: seq<T>)
    requires WeakOrder(less) && Strictly(less, a) && Strictly(less, b)
    requires forall x :: x in a <==> x in b
    ensures a == b
  {
    assert (a != [] ==> a[0] in a) && (b != [] ==> b[0] in b);
    if a != [] && b != [] {
      StrictHead(less, a, b[0]);
      StrictHead(less, b, a[0]);
      assert a[0] == b[0];
      forall x
        ensures x in a[1..] <==> x in b[1..]
      {
        StrictTail(less, a, x);
        StrictTail(less, b, x);
      }
      StrictUnique(less, a[1..], b[1..]);
      assert a == [a[0]] + a[1..] && b == [b[0]] + b[1..];
    }
  }

  lemma StrictHead<T(!new)>(less: (T, T) -> bool, a: seq<T>, x: T)
    requires WeakOrder(less) && Strictly(less, a) && x in a
    ensures x == a[0] || less(a[0], x)
  {
  }

  lemma StrictTail<T(!new)>(less: (T, T) -> bool, a: seq<T>, x: T)
    requires WeakOrder(less) && Strictly(less, a) && a != []
    ensures x in a[1..] <==> x in a && x != a[0]
  {
    assert a == [a[0]] + a[1..];
  }

  ghost predicate NoDuplicates<T>(items: seq<T>) { forall i, j | 0 <= i < j < |items| :: items[i] != items[j] }

  lemma {:induction false} NoDuplicatesMultiset<T>(items: seq<T>)
    requires NoDuplicates(items)
    ensures multiset(items) == multiset(set x | x in items)
  {
    if items != [] {
      var last := |items| - 1;
      var init := items[..last];
      NoDuplicatesMultiset(init);
      assert items == init + [items[last]];
      assert (set x | x in items) == (set x | x in init) + {items[last]};
    }
  }

  /** Duplicate-free sequences with the same elements are permutations of each other. */
  lemma SameElementsPermute<T>(a: seq<T>, b: seq<T>)
    requires NoDuplicates(a) && NoDuplicates(b) && forall x :: x in a <==> x in b
    ensures multiset(a) == multiset(b)
  {
    NoDuplicatesMultiset(a);
    NoDuplicatesMultiset(b);
    assert (set x | x in a) == (set x | x in b);
  }

  lemma {:induction false} InsertStrict<T(!new)>(less: (T, T) -> bool, item: T, sorted: seq<T>)
    requires WeakOrder(less) && Strictly(less, sorted)
    requires forall x | x in sorted :: less(x, item) || less(item, x)
    ensures Strictly(less, Insert(less, item, sorted))
    ensures forall x :: x in Insert(less, item, sorted) <==> x == item || x in sorted
  {
    if sorted == [] {
    } else if !less(sorted[0], item) {
      assert forall j | 0 < j < |sorted| :: less(sorted[0], sorted[j]) && !less(sorted[j], sorted[0]);
    } else {
      assert sorted == [sorted[0]] + sorted[1..];
      InsertStrict(less, item, sorted[1..]);
      var rest := Insert(less, item, sorted[1..]);
      forall j | 0 <= j < |rest|
        ensures less(sorted[0], rest[j])
      {
        assert rest[j] in rest;
        if rest[j] != item {
          var k :| 0 <= k < |sorted[1..]| && sorted[1..][k] == rest[j];
        }
      }
    }
  }

  /** Pairwise comparable elements sort strictly. */
  lemma {:induction false} SortStrict<T(!new)>(less: (T, T) -> bool, items: seq<T>)
    requires WeakOrder(less)
    requires forall i, j | 0 <= i < j < |items| :: less(items[i], items[j]) || less(items[j], items[i])
    ensures Strictly(less, Sort(less, items))
    ensures forall x :: x in Sort(less, items) <==> x in items
  {
    if items != [] {
      var rest := items[1..];
      SortStrict(less, rest);
      assert items == [items[0]] + rest;
      forall x | x in Sort(less, rest)
        ensures less(x, items[0]) || less(items[0], x)
      {
        assert x in rest;
      }
      InsertStrict(less, items[0], Sort(less, rest));
    }
  }
}
