/** The fast forms in front of the glob matcher: literals, prefixes, suffixes and prefilters. */
module Matcher {
  import opened Wrappers
  import opened Glob
  import opened Braces

  datatype RuleMatcher =
    | Exact(ignoreCase: bool)
    | Prefix(prefix: string, ignoreCase: bool)
    | Suffix(suffix: string, ignoreCase: bool)
    | Filtered(needle: Option<string>, head: Option<string>, tail: Option<string>, ignoreCase: bool)

  predicate EndsWith(value: string, tail: string) { |tail| <= |value| && value[|value| - |tail|..] == tail }

  predicate Within(value: string, text: string, a: nat) {
    a + |text| <= |value| && value[a..a + |text|] == text
  }

  predicate HasText(value: string, text: string) {
    exists a | 0 <= a <= |value| :: Within(value, text, a)
  }

  predicate IsMeta(byte: char) { byte in {'*', '?', '[', '{', '\\'} }

  predicate HasMeta(value: string) { exists i | 0 <= i < |value| :: IsMeta(value[i]) }

  /** Where the literal scanners interrupt a run of literals. */
  predicate Interrupts(byte: char) { byte in {'*', '?', '{', '}', ','} }

  /** Behind the first `]` at or after `i`. */
  function SkipClass(pattern: string, i: nat): (next: nat)
    requires i <= |pattern|
    ensures i <= next <= |pattern|
    decreases |pattern| - i
  {
    if i == |pattern| then i else if pattern[i] == ']' then i + 1 else SkipClass(pattern, i + 1)
  }

  function Longer(current: string, longest: string): string {
    if |current| > |longest| then current else longest
  }

  /** The longest run of literals, from `i` on. */
  function LongestFrom(pattern: string, i: nat, current: string, longest: string): string
    requires i <= |pattern|
    decreases |pattern| - i
  {
    if i == |pattern| then Longer(current, longest)
    else if pattern[i] == '\\' then
      if i + 1 < |pattern| then LongestFrom(pattern, i + 2, current + [pattern[i + 1]], longest)
      else LongestFrom(pattern, i + 1, current, longest)
    else if pattern[i] == '[' then LongestFrom(pattern, SkipClass(pattern, i + 1), "", Longer(current, longest))
    else if Interrupts(pattern[i]) then LongestFrom(pattern, i + 1, "", Longer(current, longest))
    else LongestFrom(pattern, i + 1, current + [pattern[i]], longest)
  }

  /** The run of literals that ends the pattern, from `i` on. */
  function TailFrom(pattern: string, i: nat, current: string): string
    requires i <= |pattern|
    decreases |pattern| - i
  {
    if i == |pattern| then current
    else if pattern[i] == '\\' then
      if i + 1 < |pattern| then TailFrom(pattern, i + 2, current + [pattern[i + 1]])
      else TailFrom(pattern, i + 1, current)
    else if pattern[i] == '[' then TailFrom(pattern, SkipClass(pattern, i + 1), "")
    else if Interrupts(pattern[i]) then TailFrom(pattern, i + 1, "")
    else TailFrom(pattern, i + 1, current + [pattern[i]])
  }

  /** The run of literals that starts the pattern, from `i` on. */
  function HeadFrom(pattern: string, i: nat, current: string): string
    requires i <= |pattern|
    decreases |pattern| - i
  {
    if i == |pattern| then current
    else if pattern[i] == '\\' then
      if i + 1 < |pattern| then HeadFrom(pattern, i + 2, current + [pattern[i + 1]])
      else HeadFrom(pattern, i + 1, current)
    else if pattern[i] == '[' || Interrupts(pattern[i]) then current
    else HeadFrom(pattern, i + 1, current + [pattern[i]])
  }

  function NonEmpty(text: string): Option<string> { if text == "" then None else Some(text) }

  function Needle(pattern: string): Option<string> {
    var longest := LongestFrom(pattern, 0, "", "");
    if |longest| >= 2 then Some(longest) else None
  }

  function Head(pattern: string): Option<string> { NonEmpty(HeadFrom(pattern, 0, "")) }

  function Tail(pattern: string): Option<string> {
    var tail := TailFrom(pattern, 0, "");
    NonEmpty(if HasText(pattern, "**/") && At(tail, 0, '/') then tail[1..] else tail)
  }

  /** The runs of literals of a pattern, in order: an escaped byte belongs to a run, anything but a literal ends it. */
  ghost function Runs(pattern: string, i: nat, current: string): seq<string>
    requires i <= |pattern|
    decreases |pattern| - i
  {
    if i == |pattern| then [current]
    else
      match pattern[i]
      case '\\' =>
        if i + 1 == |pattern| then Runs(pattern, i + 1, current) else Runs(pattern, i + 2, current + [pattern[i + 1]])
      case '[' => [current] + Runs(pattern, SkipClass(pattern, i + 1), "")
      case byte => if Interrupts(byte) then [current] + Runs(pattern, i + 1, "") else Runs(pattern, i + 1, current + [byte])
  }

  /** The text is the first of the longest runs. */
  ghost predicate FirstLongest(runs: seq<string>, text: string) {
    && (forall run | run in runs :: |run| <= |text|)
    && exists k :: 0 <= k < |runs| && runs[k] == text && forall j | 0 <= j < k :: |runs[j]| < |text|
  }

  lemma FirstLongestCons(run: string, runs: seq<string>, text: string)
    requires FirstLongest(runs, text)
    ensures FirstLongest([run] + runs, if |text| > |run| then text else run)
  {
    var k :| 0 <= k < |runs| && runs[k] == text && forall j | 0 <= j < k :: |runs[j]| < |text|;
    if |text| > |run| {
      assert ([run] + runs)[k + 1] == text;
    } else {
      assert ([run] + runs)[0] == run;
    }
  }

  /** `retain_longest` keeps the first of the longest runs. */
  lemma {:induction false} LongestIsFirst(pattern: string, i: nat, current: string, longest: string)
    requires i <= |pattern|
    ensures FirstLongest([longest] + Runs(pattern, i, current), LongestFrom(pattern, i, current, longest))
    decreases |pattern| - i
  {
    if i == |pattern| {
      assert FirstLongest([current], current) by { assert [current][0] == current; }
      FirstLongestCons(longest, [current], current);
    } else if pattern[i] == '\\' {
      if i + 1 < |pattern| { LongestIsFirst(pattern, i + 2, current + [pattern[i + 1]], longest); }
      else { LongestIsFirst(pattern, i + 1, current, longest); }
    } else if pattern[i] == '[' || Interrupts(pattern[i]) {
      var next := if pattern[i] == '[' then SkipClass(pattern, i + 1) else i + 1;
      LongestIsFirst(pattern, next, "", Longer(current, longest));
      KeptLonger(longest, current, Runs(pattern, next, ""), LongestFrom(pattern, i, current, longest));
    } else {
      LongestIsFirst(pattern, i + 1, current + [pattern[i]], longest);
    }
  }

  lemma KeptLonger(longest: string, current: string, runs: seq<string>, text: string)
    requires FirstLongest([if |current| > |longest| then current else longest] + runs, text)
    ensures FirstLongest([longest] + ([current] + runs), text)
  {
    var kept := if |current| > |longest| then current else longest;
    var k :| 0 <= k < |[kept] + runs| && ([kept] + runs)[k] == text && forall j | 0 <= j < k :: |([kept] + runs)[j]| < |text|;
    var all := [longest] + ([current] + runs);
    forall run | run in all ensures |run| <= |text| {
      assert kept in [kept] + runs && (run in runs ==> run in [kept] + runs);
    }
    if k == 0 {
      assert all[if kept == longest && |current| <= |longest| then 0 else 1] == text;
    } else {
      assert all[k + 1] == text && ([kept] + runs)[0] == kept;
      forall j | 0 <= j < k + 1 ensures |all[j]| < |text| {
        assert j > 1 ==> all[j] == ([kept] + runs)[j - 1];
      }
    }
  }

  /** A needle is the first of the longest runs of literals, and it has at least two bytes. */
  lemma NeedleIsLongest(pattern: string)
    ensures Needle(pattern).Some? ==> FirstLongest(Runs(pattern, 0, ""), Needle(pattern).value)
    ensures Needle(pattern).Some? <==> exists run :: run in Runs(pattern, 0, "") && |run| >= 2
  {
    LongestIsFirst(pattern, 0, "", "");
    var longest, runs := LongestFrom(pattern, 0, "", ""), Runs(pattern, 0, "");
    var all := [""] + runs;
    var k :| 0 <= k < |all| && all[k] == longest && forall j | 0 <= j < k :: |all[j]| < |longest|;
    assert forall run | run in runs :: run in all;
    if k > 0 {
      assert runs[k - 1] == longest && forall j | 0 <= j < k - 1 :: runs[j] == all[j + 1];
    }
  }

  /** `retain_longest` and `longest_literal`. */
  method LongestLiteral(pattern: string) returns (needle: Option<string>)
    ensures needle == Needle(pattern)
  {
    var longest, current := "", "";
    var i := 0;
    while i < |pattern|
      invariant 0 <= i <= |pattern|
      invariant LongestFrom(pattern, 0, "", "") == LongestFrom(pattern, i, current, longest)
      decreases |pattern| - i
    {
      var byte := pattern[i];
      i := i + 1;
      if byte == '\\' {
        if i < |pattern| {
          current := current + [pattern[i]];
          i := i + 1;
        }
      } else if byte == '[' {
        longest, current := Longer(current, longest), "";
        i := Skip(pattern, i);
      } else if Interrupts(byte) {
        longest, current := Longer(current, longest), "";
      } else {
        current := current + [byte];
      }
    }
    longest := Longer(current, longest);
    return if |longest| >= 2 then Some(longest) else None;
  }

  method Skip(pattern: string, start: nat) returns (next: nat)
    requires start <= |pattern|
    ensures next == SkipClass(pattern, start)
  {
    next := start;
    while next < |pattern|
      invariant next <= |pattern| && SkipClass(pattern, start) == SkipClass(pattern, next)
    {
      next := next + 1;
      if pattern[next - 1] == ']' {
        return;
      }
    }
  }

  /** `edge_literal`. */
  method EdgeLiteral(pattern: string, prefix: bool) returns (edge: Option<string>)
    ensures edge == if prefix then Head(pattern) else Tail(pattern)
  {
    var current := "";
    var i := 0;
    while i < |pattern|
      invariant 0 <= i <= |pattern|
      invariant if prefix then HeadFrom(pattern, 0, "") == HeadFrom(pattern, i, current)
                else TailFrom(pattern, 0, "") == TailFrom(pattern, i, current)
      decreases |pattern| - i
    {
      var byte := pattern[i];
      if prefix && (byte == '[' || Interrupts(byte)) {
        return NonEmpty(current);
      }
      i := i + 1;
      if byte == '\\' {
        if i < |pattern| {
          current := current + [pattern[i]];
          i := i + 1;
        }
      } else if byte == '[' {
        current := "";
        i := Skip(pattern, i);
      } else if Interrupts(byte) {
        current := "";
      } else {
        current := current + [byte];
      }
    }
    if !prefix && HasText(pattern, "**/") && At(current, 0, '/') {
      current := current[1..];
    }
    return NonEmpty(current);
  }

  /** `RuleMatcher::new`. */
  function New(pattern: string, ignoreCase: bool): RuleMatcher {
    if '{' in pattern || HasText(pattern, "**") then NewGlob(pattern, ignoreCase)
    else if !HasMeta(pattern) then Exact(ignoreCase)
    else if At(pattern, 0, '*') && !HasMeta(pattern[1..]) then Suffix(pattern[1..], ignoreCase)
    else if At(pattern, |pattern| - 1, '*') && !HasMeta(pattern[..|pattern| - 1]) then
      Prefix(pattern[..|pattern| - 1], ignoreCase)
    else NewGlob(pattern, ignoreCase)
  }

  function NewGlob(pattern: string, ignoreCase: bool): RuleMatcher {
    Filtered(
      if '{' in pattern || HasText(pattern, "**") then None else Needle(pattern),
      Head(pattern), Tail(pattern), ignoreCase)
  }

  /** No byte of the text means anything but itself. */
  ghost predicate Verbatim(text: string) { forall c | c in text :: c != '*' && c != '?' && c != '[' && c != '{' && c != '\\' }

  lemma VerbatimIs(text: string)
    ensures HasMeta(text) <==> !Verbatim(text)
    ensures Verbatim(text) ==> '{' !in text && !HasText(text, "**")
  {
    forall a | 0 <= a < |text| - 1
      ensures text[a] in text && text[a..a + 2][0] == text[a]
    {
    }
    assert "**"[0] == '*';
  }

  lemma Surrounded(text: string)
    requires Verbatim(text)
    ensures !HasText("*" + text, "**") && !HasText(text + "*", "**")
  {
    var behind, before := "*" + text, text + "*";
    forall a | 0 <= a < |text|
      ensures text[a] in text && behind[a..a + 2][1] == text[a] && before[a..a + 2][0] == text[a]
    {
    }
    assert "**"[0] == '*' && "**"[1] == '*';
  }

  /** What is left of a pattern without its first or its last byte. */
  lemma StarAtEnd(pattern: string)
    requires pattern != ""
    ensures var rest, init := pattern[1..], pattern[..|pattern| - 1];
      && (HasMeta(rest) <==> !Verbatim(rest)) && (HasMeta(init) <==> !Verbatim(init))
      && (At(pattern, 0, '*') ==> !Verbatim(pattern) && (Verbatim(rest) ==> '{' !in pattern && !HasText(pattern, "**")))
      && (At(pattern, |pattern| - 1, '*') ==>
            !Verbatim(pattern) && (Verbatim(init) ==> '{' !in pattern && !HasText(pattern, "**")))
  {
    var rest, init := pattern[1..], pattern[..|pattern| - 1];
    VerbatimIs(rest);
    VerbatimIs(init);
    assert pattern == [pattern[0]] + rest && pattern == init + [pattern[|pattern| - 1]];
    assert pattern[0] in pattern && pattern[|pattern| - 1] in pattern;
    hide HasMeta, HasText;
    if Verbatim(rest) { Surrounded(rest); }
    if Verbatim(init) { Surrounded(init); }
  }

  /** A pattern without special bytes is compared as a whole, a star in front of such a text asks for its end and a
      star behind it for its beginning; every other pattern goes to the glob. */
  lemma FormsExactly(pattern: string, ignoreCase: bool)
    ensures New(pattern, ignoreCase) == Exact(ignoreCase) <==> Verbatim(pattern)
    ensures forall text :: New(pattern, ignoreCase) == Suffix(text, ignoreCase) <==> Verbatim(text) && pattern == "*" + text
    ensures forall text ::
      New(pattern, ignoreCase) == Prefix(text, ignoreCase) <==> Verbatim(text) && text != "" && pattern == text + "*"
    ensures New(pattern, ignoreCase).ignoreCase == ignoreCase
  {
    VerbatimIs(pattern);
    if pattern != "" { StarAtEnd(pattern); }
    hide HasMeta, HasText, NewGlob, Verbatim;
    forall text
      ensures pattern == "*" + text <==> At(pattern, 0, '*') && text == pattern[1..]
      ensures pattern == text + "*" <==> At(pattern, |pattern| - 1, '*') && text == pattern[..|pattern| - 1]
    {
    }
  }

  function Lower(value: string): string {
    seq(|value|, i requires 0 <= i < |value| => LowerByte(value[i]))
  }

  function LowerByte(byte: char): char { if 'A' <= byte <= 'Z' then byte - 'A' + 'a' else byte }

  /** Exactly the capital letters of ASCII are folded, each to its small letter. */
  lemma LowerFolds(byte: char)
    ensures 'A' <= byte <= 'Z' ==> LowerByte(byte) as int == byte as int + 32
    ensures !('A' <= byte <= 'Z') ==> LowerByte(byte) == byte
  {
  }

  /** `RuleMatcher::matches`. */
  ghost predicate Matches(matcher: RuleMatcher, pattern: string, value: string) {
    match matcher
    case Exact(ignoreCase) => if ignoreCase then Lower(pattern) == Lower(value) else pattern == value
    case Prefix(prefix, ignoreCase) =>
      |prefix| <= |value| && (if ignoreCase then Lower(value[..|prefix|]) == Lower(prefix) else prefix <= value)
    case Suffix(suffix, ignoreCase) =>
      if ignoreCase then
        Lower(value[if |value| < |suffix| then 0 else |value| - |suffix|..]) == Lower(suffix)
      else EndsWith(value, suffix)
    case Filtered(_, _, _, ignoreCase) =>
      var text := if ignoreCase then Lower(value) else value;
      Passes(matcher, text) && Matching(pattern, text)
  }

  /** The prefilters let the value through. */
  predicate Passes(matcher: RuleMatcher, value: string)
    requires matcher.Filtered?
  {
    && (matcher.head.Some? ==> matcher.head.value <= value)
    && (matcher.tail.Some? ==> EndsWith(value, matcher.tail.value))
    && (matcher.needle.Some? ==> HasText(value, matcher.needle.value))
  }

  /** The method behind `Matches`: the glob runs only if the prefilters pass. */
  method RunMatcher(matcher: RuleMatcher, pattern: string, value: string) returns (result: bool)
    ensures result <==> Matches(matcher, pattern, value)
  {
    match matcher
    case Exact(ignoreCase) =>
      result := if ignoreCase then Lower(pattern) == Lower(value) else pattern == value;
    case Prefix(prefix, ignoreCase) =>
      result := |prefix| <= |value|
        && (if ignoreCase then Lower(value[..|prefix|]) == Lower(prefix) else prefix <= value);
    case Suffix(suffix, ignoreCase) =>
      result :=
        if ignoreCase then Lower(value[if |value| < |suffix| then 0 else |value| - |suffix|..]) == Lower(suffix)
        else EndsWith(value, suffix);
    case Filtered(_, _, _, ignoreCase) =>
      var text := if ignoreCase then Lower(value) else value;
      result := Passes(matcher, text);
      if result {
        result := Braces.Matches(pattern, text);
      }
  }

  // The prefilters are sound -------------------------------------------------------------------

  /** Every class ends where the literal scanners think it ends, or the rest is skipped, and no escape dangles. */
  predicate Aligned(pattern: string, i: nat)
    requires i <= |pattern|
    decreases |pattern| - i
  {
    if i == |pattern| then true
    else
      var next := NextToken(pattern, i).1;
      match pattern[i]
      case '[' =>
        var skipped := SkipClass(pattern, i + 1);
        if ClassAt(pattern, i).None? then skipped == |pattern|
        else skipped == next && Aligned(pattern, next)
      case '\\' => i + 1 < |pattern| && Aligned(pattern, next)
      case _ => Aligned(pattern, next)
  }

  /** A matched value splits at the first token. */
  lemma FirstPiece(pattern: string, i: nat, value: string) returns (k: nat)
    requires i < |pattern| && Means(Tokens(pattern, i), value)
    ensures k <= |value| && Accepts(NextToken(pattern, i).0, value[..k])
    ensures Means(Tokens(pattern, NextToken(pattern, i).1), value[k..])
  {
    var tokens := Tokens(pattern, i);
    MeansCut(tokens, value);
    k :| Cut(tokens, value, k);
    assert tokens[1..] == Tokens(pattern, NextToken(pattern, i).1);
  }

  lemma NothingLeft(pattern: string, value: string)
    requires Means(Tokens(pattern, |pattern|), value)
    ensures value == ""
  {
    MeansNothing(value);
  }

  /** The literal scanners' step on a token that stands for one fixed byte. */
  predicate PlainByte(byte: char) { byte !in {'\\', '[', '*', '?', '{', '}', ','} }

  lemma {:induction false} HeadSound(pattern: string, i: nat, current: string, value: string)
    requires i <= |pattern| && Means(Tokens(pattern, i), value)
    ensures HeadFrom(pattern, i, current) <= current + value
    decreases |pattern| - i
  {
    if i == |pattern| {
    } else if PlainByte(pattern[i]) || (pattern[i] == '\\' && i + 1 < |pattern|) {
      var k := FirstPiece(pattern, i, value);
      var (token, next) := NextToken(pattern, i);
      assert k == 1 && value == [value[0]] + value[1..];
      HeadSound(pattern, next, current + [token.byte], value[1..]);
      assert current + [value[0]] + value[1..] == current + value;
    } else if pattern[i] == '\\' {
      assert HeadFrom(pattern, i, current) == current;
    }
  }

  lemma WithinLonger(prev: string, piece: string, text: string)
    requires HasText(prev, text)
    ensures HasText(prev + piece, text)
  {
    var a :| 0 <= a <= |prev| && Within(prev, text, a);
    assert (prev + piece)[a..a + |text|] == prev[a..a + |text|];
    assert Within(prev + piece, text, a);
  }

  lemma EndsWithHasText(prev: string, text: string)
    requires EndsWith(prev, text)
    ensures HasText(prev, text)
  {
    var a := |prev| - |text|;
    assert prev[a..a + |text|] == prev[a..];
    assert Within(prev, text, a);
  }

  lemma LongerFound(prev: string, current: string, longest: string)
    requires EndsWith(prev, current) && HasText(prev, longest)
    ensures HasText(prev, Longer(current, longest))
  {
    EndsWithHasText(prev, current);
  }

  /** Every matched value contains the longest literal run. */
  lemma {:induction false} NeedleSound(pattern: string, i: nat, current: string, longest: string, prev: string, value: string)
    requires i <= |pattern| && Means(Tokens(pattern, i), value) && Aligned(pattern, i)
    requires EndsWith(prev, current) && HasText(prev, longest)
    requires !HasText(pattern, "**")
    ensures HasText(prev + value, LongestFrom(pattern, i, current, longest))
    decreases |pattern| - i
  {
    hide HasText, EndsWith, ClassAt, AfterDoubleStar, Means;
    LongerFound(prev, current, longest);
    if i == |pattern| {
      NothingLeft(pattern, value);
      assert prev + value == prev;
    } else {
      var k := FirstPiece(pattern, i, value);
      var (token, next) := NextToken(pattern, i);
      if pattern[i] == '[' && ClassAt(pattern, i).None? {
        assert LongestFrom(pattern, i, current, longest) == Longer("", Longer(current, longest));
        WithinLonger(prev, value, Longer(current, longest));
      } else {
        NotDouble(pattern, i);
        var piece := value[..k];
        assert prev + value == prev + piece + value[k..];
        WithinLonger(prev, piece, longest);
        WithinLonger(prev, piece, Longer(current, longest));
        if PlainByte(pattern[i]) || pattern[i] == '\\' {
          assert piece == [token.byte];
          EndsWithNext(prev, current, token.byte);
          NeedleSound(pattern, next, current + [token.byte], longest, prev + piece, value[k..]);
        } else {
          EndsWithNothing(prev + piece);
          NeedleSound(pattern, next, "", Longer(current, longest), prev + piece, value[k..]);
        }
      }
    }
  }

  lemma EndsWithNothing(prev: string)
    ensures EndsWith(prev, "")
  {
  }

  lemma EndsWithNext(prev: string, current: string, byte: char)
    requires EndsWith(prev, current)
    ensures EndsWith(prev + [byte], current + [byte])
  {
    var a := |prev| - |current|;
    assert (prev + [byte])[a..] == prev[a..] + [byte];
  }

  lemma NotDouble(pattern: string, i: nat)
    requires i < |pattern| && !HasText(pattern, "**")
    ensures pattern[i] == '*' ==> !At(pattern, i + 1, '*')
  {
    if pattern[i] == '*' && At(pattern, i + 1, '*') {
      assert Within(pattern, "**", i);
    }
  }

  /** The scanner's tail is at the end of what has matched, up to a slash that a `**` absorbed. */
  ghost predicate TailOf(pattern: string, prev: string, tail: string) {
    || EndsWith(prev, tail)
    || (HasText(pattern, "**/") && tail != "" && tail[0] == '/' && EndsWith(prev, tail[1..]))
  }

  lemma TailOfNext(pattern: string, prev: string, tail: string, byte: char)
    requires TailOf(pattern, prev, tail)
    ensures TailOf(pattern, prev + [byte], tail + [byte])
  {
    hide HasText, EndsWith;
    if EndsWith(prev, tail) {
      EndsWithNext(prev, tail, byte);
    } else {
      EndsWithNext(prev, tail[1..], byte);
      assert (tail + [byte])[1..] == tail[1..] + [byte];
    }
  }

  /** Every matched value ends with the tail. */
  lemma {:induction false} TailSound(pattern: string, i: nat, current: string, prev: string, value: string)
    requires i <= |pattern| && Means(Tokens(pattern, i), value) && Aligned(pattern, i)
    requires TailOf(pattern, prev, current)
    ensures TailOf(pattern, prev + value, TailFrom(pattern, i, current))
    decreases |pattern| - i
  {
    if i == |pattern| {
      NothingLeft(pattern, value);
      assert prev + value == prev;
    } else {
      var k := FirstPiece(pattern, i, value);
      var (token, next) := NextToken(pattern, i);
      var piece := value[..k];
      assert prev + value == prev + piece + value[k..];
      if pattern[i] == '[' && ClassAt(pattern, i).None? {
        assert TailFrom(pattern, i, current) == "";
      } else if PlainByte(pattern[i]) || pattern[i] == '\\' {
        assert piece == [token.byte];
        TailOfNext(pattern, prev, current, token.byte);
        TailSound(pattern, next, current + [token.byte], prev + piece, value[k..]);
      } else if token.DoubleStar? {
        TailDoubleStar(pattern, i, current);
        var tail := if At(pattern, AfterStars(pattern, i + 2), '/') then "/" else "";
        assert EndsWith(prev + piece, "");
        TailSound(pattern, next, tail, prev + piece, value[k..]);
      } else {
        TailSound(pattern, next, "", prev + piece, value[k..]);
      }
    }
  }

  /** The tail scanner walks over all stars of a double star and its slash. */
  lemma TailDoubleStar(pattern: string, i: nat, current: string)
    requires i + 1 < |pattern| && pattern[i] == '*' && pattern[i + 1] == '*'
    ensures var stars := AfterStars(pattern, i + 2);
      && (At(pattern, stars, '/') ==> HasText(pattern, "**/"))
      && TailFrom(pattern, i, current)
         == TailFrom(pattern, AfterDoubleStar(pattern, i), if At(pattern, stars, '/') then "/" else "")
  {
    assert TailFrom(pattern, i, current) == TailFrom(pattern, i + 2, "");
    TailStars(pattern, i + 2);
    var stars := AfterStars(pattern, i + 2);
    if At(pattern, stars, '/') {
      StarsBehind(pattern, i + 2);
      assert Within(pattern, "**/", stars - 2);
      assert "" + "/" == "/";
    }
  }

  lemma {:induction false} TailStars(pattern: string, i: nat)
    requires i <= |pattern|
    ensures TailFrom(pattern, i, "") == TailFrom(pattern, AfterStars(pattern, i), "")
    decreases |pattern| - i
  {
    if At(pattern, i, '*') { TailStars(pattern, i + 1); }
  }

  lemma {:induction false} StarsBehind(pattern: string, i: nat)
    requires 2 <= i <= |pattern| && pattern[i - 1] == '*' && pattern[i - 2] == '*'
    ensures var stars := AfterStars(pattern, i); pattern[stars - 1] == '*' && pattern[stars - 2] == '*'
    decreases |pattern| - i
  {
    if At(pattern, i, '*') { StarsBehind(pattern, i + 1); }
  }

  /** The prefilters of an expansion-free pattern never reject a value that the glob accepts. */
  lemma PrefiltersSound(pattern: string, value: string)
    requires FirstGroup(pattern).None? && Aligned(pattern, 0) && Matching(pattern, value)
    ensures Passes(NewGlob(pattern, false), value)
  {
    MatchingLeaf(pattern, value);
    HeadSound(pattern, 0, "", value);
    assert "" + value == value;
    assert EndsWith("", "") && TailOf(pattern, "", "");
    TailSound(pattern, 0, "", "", value);
    if !HasText(pattern, "**") {
      assert Within("", "", 0);
      NeedleSound(pattern, 0, "", "", "", value);
    }
  }

  // The literal forms --------------------------------------------------------------------------

  /** A pattern without special bytes, in front of what `rest` means. */
  lemma {:induction false} LiteralMeans(pattern: string, i: nat, j: nat, value: string)
    requires i <= j <= |pattern| && !HasMeta(pattern[i..j])
    ensures Means(Tokens(pattern, i), value) <==>
      pattern[i..j] <= value && Means(Tokens(pattern, j), value[j - i..])
    decreases j - i
  {
    if i == j {
      assert value[0..] == value;
    } else {
      assert pattern[i..j][0] == pattern[i] && !IsMeta(pattern[i]);
      var rest := pattern[i + 1..j];
      assert pattern[i..j] == [pattern[i]] + rest;
      MeansStep(Tokens(pattern, i), value);
      assert Tokens(pattern, i)[1..] == Tokens(pattern, i + 1);
      forall k | 0 <= k < |rest| ensures !IsMeta(rest[k]) {
        assert pattern[i..j][k + 1] == rest[k];
      }
      if value != "" {
        LiteralMeans(pattern, i + 1, j, value[1..]);
        if |value| >= j - i { assert value[1..][j - i - 1..] == value[j - i..]; }
      }
    }
  }

  lemma ExactForm(pattern: string, value: string)
    requires New(pattern, false).Exact?
    ensures Means(Tokens(pattern, 0), value) <==> value == pattern
  {
    assert pattern[0..|pattern|] == pattern;
    LiteralMeans(pattern, 0, |pattern|, value);
    if pattern <= value { MeansNothing(value[|pattern|..]); }
  }

  /** `p*` is a prefix test whose rest must not hold a slash, which the fast form does not check. */
  lemma PrefixForm(pattern: string, value: string)
    requires New(pattern, false).Prefix?
    ensures var prefix := New(pattern, false).prefix;
      Means(Tokens(pattern, 0), value) <==> prefix <= value && '/' !in value[|prefix|..]
  {
    var n := |pattern| - 1;
    assert pattern[0..n] == pattern[..n];
    LiteralMeans(pattern, 0, n, value);
    if pattern[..n] <= value { StarAlone(pattern, value[n..]); }
  }

  lemma StarAlone(pattern: string, rest: string)
    requires At(pattern, |pattern| - 1, '*')
    ensures Means(Tokens(pattern, |pattern| - 1), rest) <==> '/' !in rest
  {
    var tokens := Tokens(pattern, |pattern| - 1);
    assert tokens == [Star] + Tokens(pattern, |pattern|) == [Star];
    MeansCut(tokens, rest);
    assert tokens[1..] == [];
    if '/' !in rest {
      assert rest[..|rest|] == rest && rest[|rest|..] == "";
      MeansNothing("");
      assert Cut(tokens, rest, |rest|);
    }
    if k: nat :| Cut(tokens, rest, k) {
      MeansNothing(rest[k..]);
      assert rest[..k] == rest;
    }
  }

  /** `*s` likewise. */
  lemma SuffixForm(pattern: string, value: string)
    requires New(pattern, false).Suffix?
    ensures var suffix := New(pattern, false).suffix;
      Means(Tokens(pattern, 0), value) <==> EndsWith(value, suffix) && '/' !in value[..|value| - |suffix|]
  {
    var tokens, suffix := Tokens(pattern, 0), pattern[1..];
    NotDouble(pattern, 0);
    assert tokens == [Star] + Tokens(pattern, 1) && tokens[1..] == Tokens(pattern, 1);
    MeansCut(tokens, value);
    forall k: nat | k <= |value|
      ensures Means(tokens[1..], value[k..]) <==> value[k..] == suffix
    {
      SuffixLiteral(pattern, value[k..]);
    }
    if EndsWith(value, suffix) && '/' !in value[..|value| - |suffix|] {
      assert Cut(tokens, value, |value| - |suffix|);
    }
  }

  lemma SuffixLiteral(pattern: string, value: string)
    requires 1 <= |pattern| && !HasMeta(pattern[1..])
    ensures Means(Tokens(pattern, 1), value) <==> value == pattern[1..]
  {
    assert pattern[1..|pattern|] == pattern[1..];
    LiteralMeans(pattern, 1, |pattern|, value);
    if pattern[1..] <= value { MeansNothing(value[|pattern| - 1..]); }
  }

  lemma NoGroup(pattern: string, i: nat, mode: Mode)
    requires '{' !in pattern
    ensures FindOpen(pattern, i, mode).None?
    decreases |pattern| - i
  {
  }

  /** Where the fast form and the glob disagree: a prefix or suffix test ignores slashes in the rest. */
  predicate SlashInRest(matcher: RuleMatcher, value: string) {
    match matcher
    case Prefix(prefix, _) => prefix <= value && '/' in value[|prefix|..]
    case Suffix(suffix, _) => EndsWith(value, suffix) && '/' in value[..|value| - |suffix|]
    case _ => false
  }

  /** The case-sensitive fast forms and the glob agree on every value except exactly those. */
  lemma FastForms(pattern: string, value: string)
    requires FirstGroup(pattern).None? && Aligned(pattern, 0)
    ensures var matcher := New(pattern, false);
      (Matches(matcher, pattern, value) <==> Matching(pattern, value)) <==> !SlashInRest(matcher, value)
  {
    MatchingLeaf(pattern, value);
    match New(pattern, false)
    case Exact(_) => ExactForm(pattern, value);
    case Prefix(_, _) => PrefixForm(pattern, value);
    case Suffix(_, _) => SuffixForm(pattern, value);
    case Filtered(_, _, _, _) => if Matching(pattern, value) { PrefiltersSound(pattern, value); }
  }

  /** On values without a slash they always agree. */
  lemma FastFormsOnNames(pattern: string, value: string)
    requires FirstGroup(pattern).None? && Aligned(pattern, 0) && '/' !in value
    ensures Matches(New(pattern, false), pattern, value) <==> Matching(pattern, value)
  {
    FastForms(pattern, value);
    match New(pattern, false)
    case Prefix(prefix, _) => assert forall c | prefix <= value && c in value[|prefix|..] :: c in value;
    case Suffix(suffix, _) => assert forall c | EndsWith(value, suffix) && c in value[..|value| - |suffix|] :: c in value;
    case _ =>
  }

  /** Without alignment the prefilters do reject: a dangling escape, and an escape inside a class. */
  lemma MisalignedRejects()
    ensures Matching("a\\", "a\\") && !Matches(New("a\\", false), "a\\", "a\\")
    ensures Matching("[\\]b]", "b") && !Matches(New("[\\]b]", false), "[\\]b]", "b")
  {
    DanglingRejects();
    EscapedClassRejects();
  }

  lemma DanglingRejects()
    ensures Matching("a\\", "a\\") && !Matches(New("a\\", false), "a\\", "a\\")
  {
    var pattern := "a\\";
    assert Tokens(pattern, 1) == [Literal('\\')];
    assert Tokens(pattern, 0) == [Literal('a'), Literal('\\')];
    assert Joined(["\\"]) == "\\" && Joined(["a", "\\"]) == pattern;
    assert Splits(Tokens(pattern, 0), pattern, ["a", "\\"]);
    NoGroup(pattern, 0, PLAIN);
    MatchingLeaf(pattern, pattern);
    assert IsMeta(pattern[1]) && pattern[1..] == "\\" && IsMeta("\\"[0]);
    assert TailFrom(pattern, 1, "a") == "a";
    assert TailFrom(pattern, 0, "") == "a";
  }

  lemma EscapedClassRejects()
    ensures Matching("[\\]b]", "b") && !Matches(New("[\\]b]", false), "[\\]b]", "b")
  {
    hide Means, Tokens, TailFrom, HeadFrom, LongestFrom, FindOpen, Leaves;
    var pattern := "[\\]b]";
    EscapedClassMeans();
    NoGroup(pattern, 0, PLAIN);
    MatchingLeaf(pattern, "b");
    EscapedClassTail();
    assert IsMeta(pattern[0]) && pattern[..4][0] == '[';
  }

  lemma EscapedClassMeans()
    ensures Means(Tokens("[\\]b]", 0), "b")
  {
    var pattern := "[\\]b]";
    var members := [Member(']', ']'), Member('b', 'b')];
    assert ClassMembers(pattern, 4, true) == Some(([], 5));
    assert NextMember(pattern, 3) == Some((Member('b', 'b'), 4)) && [Member('b', 'b')] + [] == [Member('b', 'b')];
    assert ClassMembers(pattern, 3, true) == Some(([Member('b', 'b')], 5));
    assert NextMember(pattern, 1) == Some((Member(']', ']'), 3)) && [Member(']', ']')] + [Member('b', 'b')] == members;
    assert ClassMembers(pattern, 1, false) == Some((members, 5));
    assert Tokens(pattern, 0) == [Class(false, members)];
    assert members[1] in members && Contains(members, 'b');
    assert Joined(["b"]) == "b" && Splits(Tokens(pattern, 0), "b", ["b"]);
  }

  lemma EscapedClassTail()
    ensures TailFrom("[\\]b]", 0, "") == "b]"
  {
    var pattern := "[\\]b]";
    assert SkipClass(pattern, 2) == 3 && SkipClass(pattern, 1) == 3;
    assert TailFrom(pattern, 4, "b") == "b]" && TailFrom(pattern, 3, "") == "b]";
  }
}
