/** Brace alternatives: scanning for a group, expanding it, and matching over all expansions. */
module Braces {
  import opened Wrappers
  import Glob

  /** The scanner's flags. */
  datatype Mode = Mode(escaped: bool, inClass: bool) {
    predicate Plain() { !escaped && !inClass }

    function After(byte: char): Mode {
      if escaped then Mode(false, inClass)
      else if byte == '\\' then Mode(true, inClass)
      else if byte == '[' then Mode(false, true)
      else if byte == ']' then Mode(false, false)
      else this
    }
  }

  const PLAIN := Mode(false, false)

  /** The first opening brace at or after `i`. */
  function FindOpen(pattern: string, i: nat, mode: Mode): (r: Option<nat>)
    ensures r.Some? ==> i <= r.value < |pattern| && pattern[r.value] == '{'
    decreases |pattern| - i
  {
    if i >= |pattern| then None
    else if mode.Plain() && pattern[i] == '{' then Some(i)
    else FindOpen(pattern, i + 1, mode.After(pattern[i]))
  }

  /** The rest of the alternatives of the open group and the index of its closing brace. */
  function FindClose(pattern: string, i: nat, mode: Mode, depth: nat, start: nat): (r: Option<(seq<string>, nat)>)
    requires start <= i && depth >= 1
    ensures r.Some? ==>
      && i <= r.value.1 < |pattern|
      && forall a | a in r.value.0 :: |a| <= r.value.1 - start
    decreases |pattern| - i
  {
    if i >= |pattern| then None
    else if mode.Plain() && pattern[i] == '{' then FindClose(pattern, i + 1, mode, depth + 1, start)
    else if mode.Plain() && pattern[i] == '}' then
      if depth == 1 then Some(([pattern[start..i]], i)) else FindClose(pattern, i + 1, mode, depth - 1, start)
    else if mode.Plain() && pattern[i] == ',' && depth == 1 then
      Preceded(pattern[start..i], FindClose(pattern, i + 1, mode, 1, i + 1))
    else FindClose(pattern, i + 1, mode.After(pattern[i]), depth, start)
  }

  function Preceded(first: string, rest: Option<(seq<string>, nat)>): Option<(seq<string>, nat)> {
    match rest
    case None => None
    case Some((alternatives, end)) => Some(([first] + alternatives, end))
  }

  /** The first brace group: its start, its alternatives and its end. */
  function FirstGroup(pattern: string): (r: Option<(nat, seq<string>, nat)>)
    ensures r.Some? ==> var (start, alternatives, end) := r.value;
      start < end < |pattern| && forall a | a in alternatives :: |a| <= end - start - 1
  {
    var start :- FindOpen(pattern, 0, PLAIN);
    var (alternatives, end) :- FindClose(pattern, start + 1, PLAIN, 1, start + 1);
    Some((start, alternatives, end))
  }

  /** The pattern with its group `start..end` replaced by one alternative. */
  function Replaced(pattern: string, start: nat, alternative: string, end: nat): string
    requires start < end < |pattern|
  {
    pattern[..start] + alternative + pattern[end + 1..]
  }

  /** The brace-free patterns a pattern stands for. */
  function Leaves(pattern: string): seq<string>
    decreases |pattern|, 1, 0
  {
    match FirstGroup(pattern)
    case None => [pattern]
    case Some((start, alternatives, end)) => LeavesOf(pattern, start, alternatives, end)
  }

  function LeavesOf(pattern: string, start: nat, alternatives: seq<string>, end: nat): seq<string>
    requires start < end < |pattern| && forall a | a in alternatives :: |a| <= end - start - 1
    decreases |pattern|, 0, |alternatives|
  {
    if alternatives == [] then []
    else
      assert alternatives[0] in alternatives;
      Leaves(Replaced(pattern, start, alternatives[0], end)) + LeavesOf(pattern, start, alternatives[1..], end)
  }

  /** The meaning of a pattern: some expansion of it splits the value. */
  ghost predicate Matching(pattern: string, value: string) {
    exists leaf :: leaf in Leaves(pattern) && Glob.Means(Glob.Tokens(leaf, 0), value)
  }

  lemma MatchingLeaf(pattern: string, value: string)
    requires FirstGroup(pattern).None?
    ensures Matching(pattern, value) <==> Glob.Means(Glob.Tokens(pattern, 0), value)
  {
    assert pattern in Leaves(pattern);
  }

  ghost predicate MatchingOne(pattern: string, start: nat, alternatives: seq<string>, end: nat, value: string)
    requires start < end < |pattern|
  {
    exists a :: a in alternatives && Matching(Replaced(pattern, start, a, end), value)
  }

  lemma {:induction false} LeavesOfMatching(pattern: string, start: nat, alternatives: seq<string>, end: nat, value: string)
    requires start < end < |pattern| && forall a | a in alternatives :: |a| <= end - start - 1
    ensures (exists leaf :: leaf in LeavesOf(pattern, start, alternatives, end) && Glob.Means(Glob.Tokens(leaf, 0), value))
            <==> MatchingOne(pattern, start, alternatives, end, value)
    decreases |alternatives|
  {
    if alternatives != [] {
      var first := Replaced(pattern, start, alternatives[0], end);
      LeavesOfMatching(pattern, start, alternatives[1..], end, value);
      if MatchingOne(pattern, start, alternatives, end, value) {
        var a :| a in alternatives && Matching(Replaced(pattern, start, a, end), value);
        assert a == alternatives[0] || a in alternatives[1..];
        if Matching(first, value) {
          var leaf :| leaf in Leaves(first) && Glob.Means(Glob.Tokens(leaf, 0), value);
          assert leaf in LeavesOf(pattern, start, alternatives, end);
        } else {
          assert MatchingOne(pattern, start, alternatives[1..], end, value);
          var leaf :| leaf in LeavesOf(pattern, start, alternatives[1..], end) && Glob.Means(Glob.Tokens(leaf, 0), value);
          assert leaf in LeavesOf(pattern, start, alternatives, end);
        }
      }
      if leaf :| leaf in LeavesOf(pattern, start, alternatives, end) && Glob.Means(Glob.Tokens(leaf, 0), value) {
        if leaf in Leaves(first) {
          assert Matching(first, value) && alternatives[0] in alternatives;
        } else {
          assert leaf in LeavesOf(pattern, start, alternatives[1..], end);
          var a :| a in alternatives[1..] && Matching(Replaced(pattern, start, a, end), value);
          assert a in alternatives;
        }
      }
    }
  }

  /** The first loop of `matches_brace_alternatives`. */
  method ScanOpen(pattern: string) returns (start: Option<nat>)
    ensures start == FindOpen(pattern, 0, PLAIN)
  {
    var mode := PLAIN;
    for index := 0 to |pattern|
      invariant FindOpen(pattern, 0, PLAIN) == FindOpen(pattern, index, mode)
    {
      if mode.Plain() && pattern[index] == '{' {
        return Some(index);
      }
      mode := mode.After(pattern[index]);
    }
    return None;
  }

  /** The second loop of `matches_brace_alternatives`. */
  method ScanAlternatives(pattern: string, start: nat) returns (group: Option<(seq<string>, nat)>)
    requires start < |pattern|
    ensures group == FindClose(pattern, start + 1, PLAIN, 1, start + 1)
  {
    var depth, mode, alternativeStart := 1, PLAIN, start + 1;
    var alternatives: seq<string> := [];
    AllFoundNothing(FindClose(pattern, start + 1, PLAIN, 1, start + 1));
    for index := start + 1 to |pattern|
      invariant depth >= 1 && 0 <= alternativeStart <= index
      invariant FindClose(pattern, start + 1, PLAIN, 1, start + 1)
             == AllFound(alternatives, FindClose(pattern, index, mode, depth, alternativeStart))
    {
      var byte := pattern[index];
      if mode.Plain() && byte == '{' {
        depth := depth + 1;
      } else if mode.Plain() && byte == '}' {
        depth := depth - 1;
        if depth == 0 {
          return Some((alternatives + [pattern[alternativeStart..index]], index));
        }
      } else if mode.Plain() && byte == ',' && depth == 1 {
        AllFoundNext(alternatives, pattern[alternativeStart..index], FindClose(pattern, index + 1, mode, 1, index + 1));
        alternatives := alternatives + [pattern[alternativeStart..index]];
        alternativeStart := index + 1;
      } else {
        mode := mode.After(byte);
      }
    }
    return None;
  }

  function AllFound(found: seq<string>, rest: Option<(seq<string>, nat)>): Option<(seq<string>, nat)> {
    match rest
    case None => None
    case Some((alternatives, end)) => Some((found + alternatives, end))
  }

  lemma AllFoundNothing(rest: Option<(seq<string>, nat)>)
    ensures AllFound([], rest) == rest
  {
    if rest.Some? { assert [] + rest.value.0 == rest.value.0; }
  }

  lemma AllFoundNext(found: seq<string>, next: string, rest: Option<(seq<string>, nat)>)
    ensures AllFound(found, Preceded(next, rest)) == AllFound(found + [next], rest)
  {
    if rest.Some? { assert found + ([next] + rest.value.0) == found + [next] + rest.value.0; }
  }

  /** `matches`: recursion over the alternatives of the first group, then the memoised matcher. */
  method Matches(pattern: string, value: string) returns (result: bool)
    ensures result <==> Matching(pattern, value)
    decreases |pattern|
  {
    hide Matching, Glob.Means, Glob.Tokens, FindClose, FindOpen;
    var group: Option<(seq<string>, nat)> := None;
    var open := ScanOpen(pattern);
    if open.Some? {
      group := ScanAlternatives(pattern, open.value);
    }
    if group.None? {
      MatchingLeaf(pattern, value);
      ghost var evaluated;
      result, evaluated := Glob.MatchesLeaf(pattern, value);
      return;
    }
    var (alternatives, end) := group.value;
    var start := open.value;
    assert FirstGroup(pattern) == Some((start, alternatives, end));
    GroupMatching(pattern, value);
    for i := 0 to |alternatives|
      invariant forall j | 0 <= j < i :: !Matching(Replaced(pattern, start, alternatives[j], end), value)
    {
      assert alternatives[i] in alternatives;
      result := Matches(Replaced(pattern, start, alternatives[i], end), value);
      if result {
        return;
      }
    }
    result := false;
  }

  lemma GroupMatching(pattern: string, value: string)
    requires FirstGroup(pattern).Some?
    ensures var (start, alternatives, end) := FirstGroup(pattern).value;
      Matching(pattern, value) <==> MatchingOne(pattern, start, alternatives, end, value)
  {
    var (start, alternatives, end) := FirstGroup(pattern).value;
    assert Leaves(pattern) == LeavesOf(pattern, start, alternatives, end);
    LeavesOfMatching(pattern, start, alternatives, end, value);
  }
}
