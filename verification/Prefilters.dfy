/**
 The prefilters in front of patterns with brace groups: they look at the pattern as it is written, while the
 glob matches its expansions.
 */
module Prefilters {
  import opened Wrappers
  import opened Glob
  import opened Braces
  import opened Matcher

  // One scan for both the brace scanner and the tail scanner -----------------------------------

  /** How much of a class has been read. */
  datatype Phase = Opened | Marked | Started

  /** The brace scanner's flags with the tail scanner's run; `ordinary` while every class was an ordinary one. */
  datatype Scan = Scan(mode: Mode, phase: Phase, current: string, ordinary: bool) {
    function Step(byte: char): Scan {
      if mode.escaped then
        Scan(mode.After(byte), phase, if mode.inClass then "" else current + [byte], ordinary)
      else if mode.inClass then
        Scan(mode.After(byte),
             if phase == Opened && byte in {'!', '^'} then Marked else Started,
             "",
             ordinary && byte != '\\' && (byte == ']' ==> phase == Started))
      else
        Scan(mode.After(byte),
             if byte == '[' then Opened else phase,
             if byte == '\\' then current else if byte == '[' || Interrupts(byte) then "" else current + [byte],
             ordinary)
    }

    function Over(text: string): Scan
      decreases |text|
    {
      if text == "" then this else Step(text[0]).Over(text[1..])
    }
  }

  const START := Scan(PLAIN, Started, "", true)

  /** No escape inside a class, no class that starts with `]`, and no escape at the very end. */
  predicate Ordinary(pattern: string) {
    START.Over(pattern).ordinary && !START.Over(pattern).mode.escaped
  }

  /** Scans that only differ in the run. */
  predicate Same(s: Scan, t: Scan) {
    s.mode == t.mode && s.ordinary == t.ordinary && (s.mode.inClass ==> s.phase == t.phase)
  }

  lemma {:induction false} OverAppend(s: Scan, a: string, b: string)
    ensures s.Over(a + b) == s.Over(a).Over(b)
    decreases |a|
  {
    if a == "" {
      assert a + b == b;
    } else {
      assert (a + b)[0] == a[0] && (a + b)[1..] == a[1..] + b;
      OverAppend(s.Step(a[0]), a[1..], b);
    }
  }

  lemma OverNext(s: Scan, pattern: string, from: nat, i: nat)
    requires from <= i < |pattern|
    ensures s.Over(pattern[from..i + 1]) == s.Over(pattern[from..i]).Step(pattern[i])
  {
    assert pattern[from..i + 1] == pattern[from..i] + [pattern[i]];
    OverAppend(s, pattern[from..i], [pattern[i]]);
    assert [pattern[i]][1..] == "";
  }

  lemma {:induction false} OrdinaryBefore(s: Scan, text: string)
    requires s.Over(text).ordinary
    ensures s.ordinary
    decreases |text|
  {
    if text != "" { OrdinaryBefore(s.Step(text[0]), text[1..]); }
  }

  lemma OrdinaryPrefix(pattern: string, i: nat)
    requires START.Over(pattern).ordinary && i <= |pattern|
    ensures START.Over(pattern[..i]).ordinary
  {
    assert pattern == pattern[..i] + pattern[i..];
    OverAppend(START, pattern[..i], pattern[i..]);
    OrdinaryBefore(START.Over(pattern[..i]), pattern[i..]);
  }

  /** A longer run in front leaves a run that ends with the shorter one's. */
  lemma {:induction false} SameOver(s: Scan, t: Scan, text: string)
    requires Same(s, t) && EndsWith(s.current, t.current)
    ensures Same(s.Over(text), t.Over(text)) && EndsWith(s.Over(text).current, t.Over(text).current)
    decreases |text|
  {
    if text != "" {
      EndsWithNext(s.current, t.current, text[0]);
      SameOver(s.Step(text[0]), t.Step(text[0]), text[1..]);
    }
  }

  // From the written pattern to its expansions -------------------------------------------------

  lemma {:induction false} OpenPlain(pattern: string, i: nat, mode: Mode)
    requires i <= |pattern| && START.Over(pattern[..i]).mode == mode
    ensures var open := FindOpen(pattern, i, mode); open.Some? ==> START.Over(pattern[..open.value]).mode == PLAIN
    decreases |pattern| - i
  {
    if i < |pattern| && !(mode.Plain() && pattern[i] == '{') {
      OverNext(START, pattern, 0, i);
      OpenPlain(pattern, i + 1, mode.After(pattern[i]));
    }
  }

  predicate Closed(text: string) { START.Over(text).mode == PLAIN && START.Over(text).ordinary }

  predicate Emptied(text: string) { Closed(text) && START.Over(text).current == "" }

  /** The scan of the whole pattern and the scan of the alternative that began at `from` have the same flags. */
  predicate Reading(pattern: string, from: nat, i: nat, mode: Mode)
    requires from <= i <= |pattern|
  {
    Same(START.Over(pattern[..i]), START.Over(pattern[from..i])) && START.Over(pattern[..i]).mode == mode
  }

  lemma ReadingNext(pattern: string, from: nat, i: nat, mode: Mode)
    requires from <= i < |pattern| && START.Over(pattern).ordinary && Reading(pattern, from, i, mode)
    ensures Reading(pattern, from, i + 1, mode.After(pattern[i]))
    ensures mode.Plain() && pattern[i] == ',' ==> Reading(pattern, i + 1, i + 1, mode)
    ensures mode.Plain() ==> Closed(pattern[from..i])
    ensures mode.Plain() && pattern[i] == '}' ==> Emptied(pattern[..i + 1])
  {
    hide Scan.Over;
    OverNext(START, pattern, 0, i);
    OverNext(START, pattern, from, i);
    OrdinaryPrefix(pattern, i);
    OrdinaryPrefix(pattern, i + 1);
    NothingRead(pattern, i + 1);
  }

  lemma NothingRead(pattern: string, i: nat)
    requires i <= |pattern|
    ensures START.Over(pattern[i..i]) == START
  {
  }

  /** Every alternative begins and ends outside classes and escapes, and so does the group. */
  lemma {:induction false} ClosePlain(pattern: string, from: nat, i: nat, mode: Mode, depth: nat)
    requires from <= i <= |pattern| && depth >= 1 && START.Over(pattern).ordinary
    requires Reading(pattern, from, i, mode)
    ensures match FindClose(pattern, i, mode, depth, from)
            case None => true
            case Some((alternatives, end)) => (forall a | a in alternatives :: Closed(a)) && Emptied(pattern[..end + 1])
    decreases |pattern| - i
  {
    hide Reading, Closed, Emptied, Scan.Over;
    if i < |pattern| {
      ReadingNext(pattern, from, i, mode);
      if mode.Plain() && pattern[i] == '{' {
        ClosePlain(pattern, from, i + 1, mode, depth + 1);
      } else if mode.Plain() && pattern[i] == '}' {
        if depth > 1 { ClosePlain(pattern, from, i + 1, mode, depth - 1); }
      } else if mode.Plain() && pattern[i] == ',' && depth == 1 {
        ClosePlain(pattern, i + 1, i + 1, mode, 1);
      } else {
        ClosePlain(pattern, from, i + 1, mode.After(pattern[i]), depth);
      }
    }
  }

  lemma {:induction false} HeadGrows(pattern: string, i: nat, current: string)
    requires i <= |pattern|
    ensures current <= HeadFrom(pattern, i, current)
    decreases |pattern| - i
  {
    if i == |pattern| {
    } else if pattern[i] == '\\' {
      if i + 1 < |pattern| { HeadGrows(pattern, i + 2, current + [pattern[i + 1]]); }
    } else if pattern[i] != '[' && !Interrupts(pattern[i]) {
      HeadGrows(pattern, i + 1, current + [pattern[i]]);
    }
  }

  /** The head ends before the first group at the latest. */
  lemma {:induction false} HeadOfLeaf(pattern: string, leaf: string, i: nat, start: nat, current: string)
    requires i <= start <= |leaf| && FindOpen(pattern, i, PLAIN) == Some(start) && leaf[..start] == pattern[..start]
    ensures HeadFrom(pattern, i, current) <= HeadFrom(leaf, i, current)
    decreases start - i
  {
    if i == start {
      HeadGrows(leaf, i, current);
    } else {
      assert leaf[..start][i] == pattern[..start][i];
      if pattern[i] == '\\' {
        assert FindOpen(pattern, i + 1, PLAIN.After('\\')) == FindOpen(pattern, i + 2, PLAIN);
        assert leaf[..start][i + 1] == pattern[..start][i + 1];
        HeadOfLeaf(pattern, leaf, i + 2, start, current + [pattern[i + 1]]);
      } else if pattern[i] != '[' && !Interrupts(pattern[i]) {
        HeadOfLeaf(pattern, leaf, i + 1, start, current + [pattern[i]]);
      }
    }
  }

  /** What an expansion keeps of the written pattern: ordinary classes, the head and the run at the end. */
  ghost predicate Keeps(pattern: string, leaf: string) {
    && Same(START.Over(leaf), START.Over(pattern))
    && EndsWith(START.Over(leaf).current, START.Over(pattern).current)
    && HeadFrom(pattern, 0, "") <= HeadFrom(leaf, 0, "")
  }

  lemma KeepsRun(before: string, alternative: string, group: string, rest: string)
    requires START.Over(before).mode == PLAIN && START.Over(before).ordinary && Closed(alternative) && Emptied(group)
    ensures var leaf, pattern := START.Over(before + alternative + rest), START.Over(group + rest);
      Same(leaf, pattern) && EndsWith(leaf.current, pattern.current)
  {
    hide Scan.Over;
    OverAppend(START, before, alternative);
    OverAppend(START, before + alternative, rest);
    OverAppend(START, group, rest);
    assert START.current == "";
    SameOver(START.Over(before), START, alternative);
    SameOver(START.Over(before + alternative), START.Over(group), rest);
  }

  lemma KeepsOne(pattern: string, start: nat, alternative: string, end: nat)
    requires START.Over(pattern).ordinary && FindOpen(pattern, 0, PLAIN) == Some(start) && start < end < |pattern|
    requires Closed(alternative) && START.Over(pattern[..start]).mode == PLAIN && Emptied(pattern[..end + 1])
    ensures Keeps(pattern, Replaced(pattern, start, alternative, end))
  {
    hide Scan.Over, FindOpen, HeadFrom, EndsWith, Closed, Emptied, Same;
    var before, rest := pattern[..start], pattern[end + 1..];
    var leaf := Replaced(pattern, start, alternative, end);
    assert leaf == before + alternative + rest && pattern == pattern[..end + 1] + rest;
    OrdinaryPrefix(pattern, start);
    KeepsRun(before, alternative, pattern[..end + 1], rest);
    assert leaf[..start] == before;
    HeadOfLeaf(pattern, leaf, 0, start, "");
  }

  lemma KeepsAgain(pattern: string, middle: string, leaf: string)
    requires Keeps(pattern, middle) && Keeps(middle, leaf)
    ensures Keeps(pattern, leaf)
  {
    hide Scan.Over, HeadFrom;
    var run, tail := START.Over(leaf).current, START.Over(pattern).current;
    var between := START.Over(middle).current;
    assert run[|run| - |tail|..] == run[|run| - |between|..][|between| - |tail|..];
  }

  lemma GroupPlain(pattern: string)
    requires START.Over(pattern).ordinary && FirstGroup(pattern).Some?
    ensures var (start, alternatives, end) := FirstGroup(pattern).value;
      && START.Over(pattern[..start]).mode == PLAIN && Emptied(pattern[..end + 1])
      && forall a | a in alternatives :: Closed(a)
  {
    hide FindClose, Closed, Emptied;
    assert pattern[..0] == "";
    OpenPlain(pattern, 0, PLAIN);
    var start := FindOpen(pattern, 0, PLAIN).value;
    OverNext(START, pattern, 0, start);
    assert pattern[start + 1..start + 1] == "";
    OrdinaryPrefix(pattern, start + 1);
    ClosePlain(pattern, start + 1, start + 1, PLAIN, 1);
  }

  lemma {:induction false} LeavesKeep(pattern: string)
    requires START.Over(pattern).ordinary
    ensures forall leaf | leaf in Leaves(pattern) :: Keeps(pattern, leaf)
    decreases |pattern|, 1, 0
  {
    hide FindClose, FindOpen, Closed, Emptied, HeadFrom, Scan.Over;
    match FirstGroup(pattern)
    case None =>
    case Some((start, alternatives, end)) =>
      GroupPlain(pattern);
      LeavesOfKeep(pattern, start, alternatives, end);
  }

  lemma {:induction false} LeavesOfKeep(pattern: string, start: nat, alternatives: seq<string>, end: nat)
    requires START.Over(pattern).ordinary && FindOpen(pattern, 0, PLAIN) == Some(start) && start < end < |pattern|
    requires START.Over(pattern[..start]).mode == PLAIN && Emptied(pattern[..end + 1])
    requires forall a | a in alternatives :: |a| <= end - start - 1 && Closed(a)
    ensures forall leaf | leaf in LeavesOf(pattern, start, alternatives, end) :: Keeps(pattern, leaf)
    decreases |pattern|, 0, |alternatives|
  {
    hide FindClose, FindOpen, Closed, Emptied, HeadFrom, Scan.Over, Leaves;
    if alternatives != [] {
      assert alternatives[0] in alternatives;
      var first := Replaced(pattern, start, alternatives[0], end);
      KeepsOne(pattern, start, alternatives[0], end);
      LeavesKeep(first);
      forall leaf | leaf in Leaves(first) ensures Keeps(pattern, leaf) {
        KeepsAgain(pattern, first, leaf);
      }
      LeavesOfKeep(pattern, start, alternatives[1..], end);
    }
  }

  // Ordinary patterns are read alike by all scanners -------------------------------------------

  /** One member of an ordinary class. */
  lemma MemberScanned(pattern: string, j: nat, s: Scan) returns (t: Scan)
    requires j < |pattern| && s.mode == Mode(false, true) && s.Over(pattern[j..]).ordinary && pattern[j] != ']'
    requires s.phase == Opened ==> !(At(pattern, j, '!') || At(pattern, j, '^'))
    ensures match NextMember(pattern, j)
            case None => SkipClass(pattern, j) == |pattern| && s.Over(pattern[j..]).mode.inClass
            case Some((_, next)) =>
              && SkipClass(pattern, j) == SkipClass(pattern, next)
              && t.mode == Mode(false, true) && t.phase == Started && t.Over(pattern[next..]) == s.Over(pattern[j..])
  {
    hide Scan.Over;
    t := Byte(pattern, j, s);
    assert pattern[j] != '\\' && EscapedMember(pattern, j) == Some((pattern[j], 1));
    if At(pattern, j + 1, '-') && !At(pattern, j + 2, ']') {
      t := Byte(pattern, j + 1, t);
      assert SkipClass(pattern, j) == SkipClass(pattern, j + 2);
      if j + 2 < |pattern| {
        t := Byte(pattern, j + 2, t);
        assert pattern[j + 2] != '\\';
        assert NextMember(pattern, j) == Some((Member(pattern[j], pattern[j + 2]), j + 3));
      } else {
        assert NextMember(pattern, j).None?;
        OverNothing(t, pattern);
      }
    }
  }

  /** A class ends at its first `]` for the matcher, too. */
  lemma {:induction false} MembersSkip(pattern: string, j: nat, s: Scan)
    requires j <= |pattern| && s.mode == Mode(false, true) && s.Over(pattern[j..]).ordinary
    requires s.phase == Opened ==> !(At(pattern, j, '!') || At(pattern, j, '^'))
    ensures match ClassMembers(pattern, j, s.phase == Started)
            case None => SkipClass(pattern, j) == |pattern| && s.Over(pattern[j..]).mode.inClass
            case Some((_, next)) => SkipClass(pattern, j) == next && pattern[next - 1] == ']'
    decreases |pattern| - j
  {
    hide Scan.Over, NextMember;
    if j == |pattern| {
      OverNothing(s, pattern);
    } else {
      if pattern[j] == ']' {
        var closed := Byte(pattern, j, s);
      } else {
        var t := MemberScanned(pattern, j, s);
        match NextMember(pattern, j)
        case None =>
        case Some((_, next)) => MembersSkip(pattern, next, t);
      }
    }
  }

  /** One byte of a scan. */
  lemma Byte(pattern: string, i: nat, s: Scan) returns (next: Scan)
    requires i < |pattern|
    ensures next == s.Step(pattern[i]) && s.Over(pattern[i..]) == next.Over(pattern[i + 1..])
    ensures s.Over(pattern[i..]).ordinary ==> s.ordinary && next.ordinary
  {
    next := s.Step(pattern[i]);
    assert pattern[i..][1..] == pattern[i + 1..];
    if s.Over(pattern[i..]).ordinary { OrdinaryBefore(next, pattern[i + 1..]); }
  }

  /** The tail scanner leaves the class where the brace scanner does. */
  lemma {:induction false} ScanSkips(pattern: string, j: nat, s: Scan) returns (t: Scan)
    requires j <= |pattern| && s.mode == Mode(false, true) && s.current == "" && s.Over(pattern[j..]).ordinary
    ensures t.Over(pattern[SkipClass(pattern, j)..]) == s.Over(pattern[j..])
    ensures t.current == "" && (t.mode == PLAIN || SkipClass(pattern, j) == |pattern|)
    decreases |pattern| - j
  {
    if j == |pattern| {
      t := s;
    } else {
      t := Byte(pattern, j, s);
      if pattern[j] != ']' { t := ScanSkips(pattern, j + 1, t); }
    }
  }

  lemma {:induction false} ScanStars(pattern: string, i: nat, s: Scan)
    requires i <= |pattern| && s.mode == PLAIN && s.current == ""
    ensures s.Over(pattern[i..]) == s.Over(pattern[AfterStars(pattern, i)..])
    decreases |pattern| - i
  {
    if At(pattern, i, '*') {
      var next := Byte(pattern, i, s);
      assert next == s;
      ScanStars(pattern, i + 1, s);
    }
  }

  /** On ordinary patterns the token reader, the tail scanner and the brace scanner stay in step. */
  lemma {:induction false} InStep(pattern: string, i: nat, s: Scan)
    requires i <= |pattern| && s.mode == PLAIN
    requires s.Over(pattern[i..]).ordinary && !s.Over(pattern[i..]).mode.escaped
    ensures Aligned(pattern, i) && TailFrom(pattern, i, s.current) == s.Over(pattern[i..]).current
    decreases |pattern| - i
  {
    if i < |pattern| {
      var next := Byte(pattern, i, s);
      if pattern[i] == '[' {
        ClassInStep(pattern, i, next);
      } else if pattern[i] == '\\' {
        assert i + 1 < |pattern|;
        var after := Byte(pattern, i + 1, next);
        InStep(pattern, i + 2, after);
      } else if pattern[i] == '*' && At(pattern, i + 1, '*') {
        StarsInStep(pattern, i, s);
      } else {
        InStep(pattern, i + 1, next);
      }
    }
  }

  lemma ClassInStep(pattern: string, i: nat, s: Scan)
    requires i < |pattern| && pattern[i] == '[' && s.mode == Mode(false, true) && s.phase == Opened && s.current == ""
    requires s.Over(pattern[i + 1..]).ordinary && !s.Over(pattern[i + 1..]).mode.escaped
    ensures Aligned(pattern, i)
    ensures forall current :: TailFrom(pattern, i, current) == s.Over(pattern[i + 1..]).current
    decreases |pattern| - i, 0
  {
    hide ClassAt, Scan.Over;
    ClassSkips(pattern, i, s);
    var skipped := SkipClass(pattern, i + 1);
    var t := ScanSkips(pattern, i + 1, s);
    if t.mode == PLAIN {
      InStep(pattern, skipped, t);
    } else {
      OverNothing(t, pattern);
    }
  }

  lemma OverNothing(s: Scan, pattern: string)
    ensures s.Over(pattern[|pattern|..]) == s
  {
  }

  lemma ClassSkips(pattern: string, i: nat, s: Scan)
    requires i < |pattern| && s.mode == Mode(false, true) && s.phase == Opened && s.Over(pattern[i + 1..]).ordinary
    ensures match ClassAt(pattern, i)
            case None => SkipClass(pattern, i + 1) == |pattern| && s.Over(pattern[i + 1..]).mode.inClass
            case Some((_, next)) => SkipClass(pattern, i + 1) == next && pattern[next - 1] == ']'
  {
    hide ClassMembers, Scan.Over;
    if Negated(pattern, i) {
      var marked := Byte(pattern, i + 1, s);
      MembersSkip(pattern, i + 2, marked);
    } else {
      MembersSkip(pattern, i + 1, s);
    }
  }

  lemma StarsInStep(pattern: string, i: nat, s: Scan)
    requires i + 1 < |pattern| && pattern[i] == '*' && pattern[i + 1] == '*' && s.mode == PLAIN
    requires s.Over(pattern[i..]).ordinary && !s.Over(pattern[i..]).mode.escaped
    ensures Aligned(pattern, i) && TailFrom(pattern, i, s.current) == s.Over(pattern[i..]).current
    decreases |pattern| - i, 0
  {
    hide Scan.Over, AfterStars, TailFrom;
    var one := Byte(pattern, i, s);
    var two := Byte(pattern, i + 1, one);
    ScanStars(pattern, i + 2, two);
    TailDoubleStar(pattern, i, s.current);
    var stars := AfterStars(pattern, i + 2);
    if At(pattern, stars, '/') {
      var slash := Byte(pattern, stars, two);
      assert "" + "/" == "/";
      InStep(pattern, stars + 1, slash);
    } else {
      InStep(pattern, stars, two);
    }
  }

  lemma OrdinaryAligned(pattern: string)
    requires Ordinary(pattern)
    ensures Aligned(pattern, 0)
  {
    assert pattern[0..] == pattern;
    InStep(pattern, 0, START);
  }

  /** Every expansion of an ordinary pattern is read alike by all scanners. */
  lemma LeafAligned(pattern: string, leaf: string)
    requires Ordinary(pattern) && leaf in Leaves(pattern)
    ensures Aligned(leaf, 0) && Keeps(pattern, leaf)
    ensures EndsWith(TailFrom(leaf, 0, ""), TailFrom(pattern, 0, ""))
  {
    LeavesKeep(pattern);
    assert leaf[0..] == leaf && pattern[0..] == pattern;
    InStep(leaf, 0, START);
    InStep(pattern, 0, START);
  }

  // What the scanned run means -----------------------------------------------------------------

  function Literals(text: string): (tokens: seq<Token>)
    ensures |tokens| == |text|
  {
    seq(|text|, k requires 0 <= k < |text| => Literal(text[k]))
  }

  predicate EndsInLiterals(tokens: seq<Token>, text: string) {
    |text| <= |tokens| && tokens[|tokens| - |text|..] == Literals(text)
  }

  /** The literals at the end stand right behind a double star. */
  predicate EndsInRun(tokens: seq<Token>, text: string) {
    |text| < |tokens| && tokens[|tokens| - |text| - 1].DoubleStar? && EndsInLiterals(tokens, text)
  }

  /** The run is made of literals, but for a slash at its front that a double star absorbed. */
  predicate RunOf(tokens: seq<Token>, run: string) {
    EndsInLiterals(tokens, run) || (At(run, 0, '/') && EndsInRun(tokens, run[1..]))
  }

  lemma RunBehind(token: Token, tokens: seq<Token>, run: string)
    requires RunOf(tokens, run)
    ensures RunOf([token] + tokens, run)
  {
    var all := [token] + tokens;
    if EndsInLiterals(tokens, run) {
      assert all[|all| - |run|..] == tokens[|tokens| - |run|..];
    } else {
      assert all[|all| - |run[1..]|..] == tokens[|tokens| - |run[1..]|..];
    }
  }

  lemma RunShorter(tokens: seq<Token>, run: string, tail: string)
    requires RunOf(tokens, run) && EndsWith(run, tail)
    ensures RunOf(tokens, tail)
  {
    if EndsInLiterals(tokens, run) {
      LiteralsShorter(tokens, run, tail);
    } else if tail != run {
      assert run[1..][|run[1..]| - |tail|..] == tail;
      LiteralsShorter(tokens, run[1..], tail);
    }
  }

  lemma LiteralsShorter(tokens: seq<Token>, run: string, tail: string)
    requires EndsInLiterals(tokens, run) && EndsWith(run, tail)
    ensures EndsInLiterals(tokens, tail)
  {
    var d := |run| - |tail|;
    assert tokens[|tokens| - |tail|..] == tokens[|tokens| - |run|..][d..];
    assert Literals(run)[d..] == Literals(tail);
  }

  lemma LiteralsNext(text: string)
    requires text != ""
    ensures Literals(text) == [Literal(text[0])] + Literals(text[1..])
  {
  }

  /** From `i` on, the scanned run is what the tokens end with. */
  lemma {:induction false} RunScanned(pattern: string, i: nat, current: string) returns (tail: string)
    requires i <= |pattern| && Aligned(pattern, i)
    ensures var run := TailFrom(pattern, i, current);
      || (run == current + tail && Tokens(pattern, i) == Literals(tail))
      || RunOf(Tokens(pattern, i), run)
    decreases |pattern| - i
  {
    tail := "";
    if i == |pattern| {
      assert current + "" == current;
    } else {
      var (token, next) := NextToken(pattern, i);
      var tokens := Tokens(pattern, i);
      assert tokens == [token] + Tokens(pattern, next);
      if pattern[i] == '[' && ClassAt(pattern, i).None? {
        assert TailFrom(pattern, i, current) == "";
        assert tokens[|tokens|..] == Literals("");
      } else if PlainByte(pattern[i]) || pattern[i] == '\\' {
        var rest := RunScanned(pattern, next, current + [token.byte]);
        tail := [token.byte] + rest;
        LiteralsNext(tail);
        assert current + [token.byte] + rest == current + tail;
        if RunOf(Tokens(pattern, next), TailFrom(pattern, i, current)) {
          RunBehind(token, Tokens(pattern, next), TailFrom(pattern, i, current));
        }
      } else {
        RunAfterBreak(pattern, i, current);
      }
    }
  }

  /** A token that interrupts the run. */
  lemma RunAfterBreak(pattern: string, i: nat, current: string)
    requires i < |pattern| && Aligned(pattern, i) && !PlainByte(pattern[i]) && pattern[i] != '\\'
    requires !(pattern[i] == '[' && ClassAt(pattern, i).None?)
    ensures RunOf(Tokens(pattern, i), TailFrom(pattern, i, current))
    decreases |pattern| - i, 0
  {
    var (token, next) := NextToken(pattern, i);
    var tokens := Tokens(pattern, next);
    var double := pattern[i] == '*' && At(pattern, i + 1, '*');
    if double { TailDoubleStar(pattern, i, current); }
    var from := if double && At(pattern, AfterStars(pattern, i + 2), '/') then "/" else "";
    var run := TailFrom(pattern, next, from);
    assert run == TailFrom(pattern, i, current);
    var rest := RunScanned(pattern, next, from);
    if RunOf(tokens, run) {
      RunBehind(token, tokens, run);
    } else {
      var all := [token] + tokens;
      assert all[|all| - |rest|..] == Literals(rest);
      assert from == "/" ==> run[1..] == rest;
      assert from == "" ==> run == rest;
    }
  }

  lemma {:induction false} JoinedAppend(a: seq<string>, b: seq<string>)
    ensures Joined(a + b) == Joined(a) + Joined(b)
  {
    if a == [] {
      assert a + b == b;
    } else {
      assert (a + b)[1..] == a[1..] + b;
      JoinedAppend(a[1..], b);
    }
  }

  /** A value of two token lists splits between them. */
  lemma MeansBoth(a: seq<Token>, b: seq<Token>, value: string) returns (k: nat)
    requires Means(a + b, value)
    ensures k <= |value| && Means(a, value[..k]) && Means(b, value[k..])
  {
    var pieces :| Splits(a + b, value, pieces);
    var left, right := pieces[..|a|], pieces[|a|..];
    assert pieces == left + right;
    JoinedAppend(left, right);
    k := |Joined(left)|;
    forall t | 0 <= t < |b| ensures Accepts(b[t], right[t]) {
      assert (a + b)[|a| + t] == b[t];
    }
    forall t | 0 <= t < |a| ensures Accepts(a[t], left[t]) {
      assert (a + b)[t] == a[t];
    }
    assert Splits(a, value[..k], left) && Splits(b, value[k..], right);
  }

  lemma BothMean(a: seq<Token>, b: seq<Token>, x: string, y: string)
    requires Means(a, x) && Means(b, y)
    ensures Means(a + b, x + y)
  {
    var left :| Splits(a, x, left);
    var right :| Splits(b, y, right);
    JoinedAppend(left, right);
    assert Splits(a + b, x + y, left + right);
  }

  lemma {:induction false} LiteralsMean(text: string, value: string)
    ensures Means(Literals(text), value) <==> value == text
    decreases |text|
  {
    if text == "" {
      MeansNothing(value);
    } else {
      LiteralsNext(text);
      MeansStep(Literals(text), value);
      assert Literals(text)[1..] == Literals(text[1..]);
      if value != "" { LiteralsMean(text[1..], value[1..]); }
    }
  }

  /** What the tokens end with, every value ends with. */
  lemma LiteralsEnd(tokens: seq<Token>, text: string, value: string)
    requires EndsInLiterals(tokens, text) && Means(tokens, value)
    ensures EndsWith(value, text)
  {
    var n := |tokens| - |text|;
    assert tokens == tokens[..n] + tokens[n..];
    var k := MeansBoth(tokens[..n], tokens[n..], value);
    LiteralsMean(text, value[k..]);
  }

  // When the prefilters are sound --------------------------------------------------------------

  /** Every class of the tokens stands for some byte. */
  ghost predicate Fillable(tokens: seq<Token>) {
    forall t | t in tokens && t.Class? :: exists byte :: AcceptsByte(t, byte)
  }

  /**
   The written pattern ends in a slash and a literal and holds no `**` in front of a slash, but in some expansion
   a `**` comes to stand in front of that slash and absorbs it.
   */
  ghost predicate SlashAbsorbed(pattern: string) {
    var run := TailFrom(pattern, 0, "");
    && At(run, 0, '/') && !HasText(pattern, "**/")
    && exists leaf | leaf in Leaves(pattern) :: Fillable(Tokens(leaf, 0)) && EndsInRun(Tokens(leaf, 0), run[1..])
  }

  lemma {:induction false} Filled(tokens: seq<Token>) returns (value: string)
    requires Fillable(tokens)
    ensures Means(tokens, value)
  {
    if tokens == [] {
      value := "";
      MeansNothing(value);
    } else {
      forall t | t in tokens[1..] && t.Class? ensures exists byte :: AcceptsByte(t, byte) {
        assert t in tokens;
      }
      var rest := Filled(tokens[1..]);
      var piece := "";
      match tokens[0] {
        case Star =>
        case DoubleStar =>
        case AnyByte => piece := "a";
        case Literal(byte) => piece := [byte];
        case Class(_, _) =>
          assert tokens[0] in tokens;
          var byte :| AcceptsByte(tokens[0], byte);
          piece := [byte];
      }
      value := piece + rest;
      assert value[..|piece|] == piece && value[|piece|..] == rest;
      assert Cut(tokens, value, |piece|);
      MeansCut(tokens, value);
    }
  }

  /** Expansions that cannot be filled match nothing. */
  lemma {:induction false} MeansFillable(tokens: seq<Token>, value: string)
    requires Means(tokens, value)
    ensures Fillable(tokens)
  {
    var pieces :| Splits(tokens, value, pieces);
    forall t | t in tokens && t.Class? ensures exists byte :: AcceptsByte(t, byte) {
      var k :| 0 <= k < |tokens| && tokens[k] == t;
      assert Accepts(tokens[k], pieces[k]);
      assert AcceptsByte(t, pieces[k][0]);
    }
  }

  /** A value of a fillable run, with a byte that is no slash where the double star is. */
  lemma RunFilled(tokens: seq<Token>, text: string) returns (value: string)
    requires Fillable(tokens) && EndsInRun(tokens, text)
    ensures Means(tokens, value) && !EndsWith(value, "/" + text)
  {
    var n := |tokens| - |text| - 1;
    forall t | t in tokens[..n] && t.Class? ensures exists byte :: AcceptsByte(t, byte) {
      assert t in tokens;
    }
    var front := Filled(tokens[..n]);
    assert tokens[n..n + 1] == [DoubleStar] && tokens[n + 1..] == Literals(text);
    LiteralsMean(text, text);
    assert Splits([DoubleStar], "a", ["a"]);
    assert tokens == tokens[..n] + [DoubleStar] + Literals(text);
    BothMean(tokens[..n], [DoubleStar], front, "a");
    BothMean(tokens[..n] + [DoubleStar], Literals(text), front + "a", text);
    value := front + "a" + text;
    assert value[|value| - |text| - 1..] == "a" + text;
    assert ("a" + text)[0] == 'a' && ("/" + text)[0] == '/';
  }

  /** An absorbed slash makes the prefilter for the tail reject a value that the glob accepts. */
  lemma AbsorbedRejects(pattern: string) returns (value: string)
    requires SlashAbsorbed(pattern)
    ensures Matching(pattern, value) && !Passes(NewGlob(pattern, false), value)
  {
    hide TailFrom, Tokens, Leaves, Means, HasText, Fillable, EndsInRun, EndsWith;
    var run := TailFrom(pattern, 0, "");
    var leaf :| leaf in Leaves(pattern) && Fillable(Tokens(leaf, 0)) && EndsInRun(Tokens(leaf, 0), run[1..]);
    value := RunFilled(Tokens(leaf, 0), run[1..]);
    assert run == "/" + run[1..];
  }

  /** The literals that every value of an expansion ends with. */
  lemma LeafRun(pattern: string, leaf: string)
    requires Ordinary(pattern) && leaf in Leaves(pattern)
    ensures RunOf(Tokens(leaf, 0), TailFrom(pattern, 0, ""))
  {
    hide RunOf, TailFrom, Tokens, Ordinary, Keeps, Aligned, EndsWith, Leaves;
    LeafAligned(pattern, leaf);
    var tail := RunScanned(leaf, 0, "");
    assert "" + tail == tail;
    if Tokens(leaf, 0) == Literals(tail) { AllLiterals(Tokens(leaf, 0), tail); }
    RunShorter(Tokens(leaf, 0), TailFrom(leaf, 0, ""), TailFrom(pattern, 0, ""));
  }

  lemma AllLiterals(tokens: seq<Token>, text: string)
    requires tokens == Literals(text)
    ensures RunOf(tokens, text)
  {
    assert tokens[|tokens| - |text|..] == tokens;
  }

  lemma TailKept(pattern: string, value: string)
    requires Ordinary(pattern) && !SlashAbsorbed(pattern) && Matching(pattern, value)
    ensures Tail(pattern).Some? ==> EndsWith(value, Tail(pattern).value)
  {
    hide *;
    var leaf := MatchingExpansion(pattern, value);
    LeafRun(pattern, leaf);
    MeansFillable(Tokens(leaf, 0), value);
    RunMeans(Tokens(leaf, 0), TailFrom(pattern, 0, ""), value);
    TailOfRun(pattern, leaf, value);
  }

  lemma MatchingExpansion(pattern: string, value: string) returns (leaf: string)
    requires Matching(pattern, value)
    ensures leaf in Leaves(pattern) && Means(Tokens(leaf, 0), value)
  {
    leaf :| leaf in Leaves(pattern) && Means(Tokens(leaf, 0), value);
  }

  lemma RunMeans(tokens: seq<Token>, run: string, value: string)
    requires RunOf(tokens, run) && Means(tokens, value)
    ensures EndsWith(value, run) || (At(run, 0, '/') && EndsInRun(tokens, run[1..]) && EndsWith(value, run[1..]))
  {
    hide Means;
    if EndsInLiterals(tokens, run) {
      LiteralsEnd(tokens, run, value);
    } else {
      LiteralsEnd(tokens, run[1..], value);
    }
  }

  lemma TailOfRun(pattern: string, leaf: string, value: string)
    requires !SlashAbsorbed(pattern) && leaf in Leaves(pattern) && Fillable(Tokens(leaf, 0))
    requires var run := TailFrom(pattern, 0, "");
      || EndsWith(value, run)
      || (At(run, 0, '/') && EndsInRun(Tokens(leaf, 0), run[1..]) && EndsWith(value, run[1..]))
    ensures Tail(pattern).Some? ==> EndsWith(value, Tail(pattern).value)
  {
    hide TailFrom, Tokens, Leaves, HasText, Fillable, EndsInRun;
    var run := TailFrom(pattern, 0, "");
    if EndsWith(value, run) && At(run, 0, '/') {
      assert value[|value| - |run[1..]|..] == value[|value| - |run|..][1..];
    }
  }

  lemma HeadKept(pattern: string, value: string)
    requires Ordinary(pattern) && Matching(pattern, value)
    ensures Head(pattern).Some? ==> Head(pattern).value <= value
  {
    hide HeadFrom, Tokens, Leaves, Means, Aligned, TailFrom, EndsWith, Ordinary, Same;
    var leaf :| leaf in Leaves(pattern) && Means(Tokens(leaf, 0), value);
    LeafAligned(pattern, leaf);
    HeadSound(leaf, 0, "", value);
    assert "" + value == value;
  }

  lemma {:induction false} GroupOpens(pattern: string)
    requires FirstGroup(pattern).Some?
    ensures '{' in pattern
  {
    var start := FindOpen(pattern, 0, PLAIN).value;
    assert pattern[start] == '{';
  }

  /** The prefilters never reject a value that the glob accepts, except exactly where a slash is absorbed. */
  lemma PrefiltersExact(pattern: string)
    requires Ordinary(pattern)
    ensures (forall value | Matching(pattern, value) :: Passes(NewGlob(pattern, false), value))
      <==> !SlashAbsorbed(pattern)
  {
    if SlashAbsorbed(pattern) {
      var value := AbsorbedRejects(pattern);
    } else {
      forall value | Matching(pattern, value) ensures Passes(NewGlob(pattern, false), value) {
        if FirstGroup(pattern).None? {
          OrdinaryAligned(pattern);
          PrefiltersSound(pattern, value);
        } else {
          TailKept(pattern, value);
          HeadKept(pattern, value);
          GroupOpens(pattern);
        }
      }
    }
  }

  /** With a group, the matcher as a whole agrees with the glob except exactly there. */
  lemma GroupsAgree(pattern: string)
    requires Ordinary(pattern) && '{' in pattern
    ensures (forall value :: Matcher.Matches(New(pattern, false), pattern, value) <==> Matching(pattern, value))
      <==> !SlashAbsorbed(pattern)
  {
    PrefiltersExact(pattern);
    forall value
      ensures Matcher.Matches(New(pattern, false), pattern, value)
        <==> Passes(NewGlob(pattern, false), value) && Matching(pattern, value)
    {
    }
  }

  // A dangling escape --------------------------------------------------------------------------

  const ESCAPE := "\\"

  lemma {:induction false} ClassKept(pattern: string, j: nat, hasMember: bool)
    requires ClassMembers(pattern, j, hasMember).Some?
    ensures ClassMembers(pattern + ESCAPE, j, hasMember) == ClassMembers(pattern, j, hasMember)
    decreases |pattern| - j
  {
    if !(pattern[j] == ']' && hasMember) {
      assert NextMember(pattern + ESCAPE, j) == NextMember(pattern, j);
      ClassKept(pattern, NextMember(pattern, j).value.1, true);
    }
  }

  lemma {:induction false} SkipKept(pattern: string, i: nat)
    requires i <= |pattern| && i < SkipClass(pattern, i) <= |pattern| && pattern[SkipClass(pattern, i) - 1] == ']'
    ensures SkipClass(pattern + ESCAPE, i) == SkipClass(pattern, i)
    decreases |pattern| - i
  {
    if pattern[i] != ']' { SkipKept(pattern, i + 1); }
  }

  lemma {:induction false} StarsKept(pattern: string, i: nat)
    requires i <= |pattern|
    ensures AfterStars(pattern + ESCAPE, i) == AfterStars(pattern, i)
    decreases |pattern| - i
  {
    if At(pattern, i, '*') { StarsKept(pattern, i + 1); }
  }

  /** From `i` on all scanners stop at the same places, and the pattern ends outside classes and escapes. */
  predicate Stops(pattern: string, i: nat)
    requires i <= |pattern|
    decreases |pattern| - i
  {
    if i == |pattern| then true
    else if pattern[i] == '\\' then i + 1 < |pattern| && Stops(pattern, i + 2)
    else if pattern[i] == '[' then
      var next := SkipClass(pattern, i + 1);
      && i + 1 < next && pattern[next - 1] == ']'
      && ClassAt(pattern, i).Some? && ClassAt(pattern, i).value.1 == next && Stops(pattern, next)
    else Stops(pattern, i + 1)
  }

  lemma {:induction false} ClosedStops(pattern: string, i: nat, s: Scan)
    requires i <= |pattern| && s.mode == PLAIN
    requires s.Over(pattern[i..]).ordinary && s.Over(pattern[i..]).mode == PLAIN
    ensures Stops(pattern, i)
    decreases |pattern| - i
  {
    hide Scan.Over;
    if i < |pattern| {
      var next := Byte(pattern, i, s);
      if pattern[i] == '[' {
        ClassSkips(pattern, i, next);
        var t := ScanSkips(pattern, i + 1, next);
        var skipped := SkipClass(pattern, i + 1);
        if t.mode != PLAIN { OverNothing(t, pattern); }
        ClosedStops(pattern, skipped, t);
      } else if pattern[i] == '\\' {
        if i + 1 == |pattern| { OverNothing(next, pattern); }
        var after := Byte(pattern, i + 1, next);
        ClosedStops(pattern, i + 2, after);
      } else {
        ClosedStops(pattern, i + 1, next);
      }
    }
  }

  lemma {:induction false} TailDangles(pattern: string, i: nat, current: string)
    requires i <= |pattern| && Stops(pattern, i)
    ensures TailFrom(pattern + ESCAPE, i, current) == TailFrom(pattern, i, current)
    decreases |pattern| - i
  {
    if i < |pattern| {
      if pattern[i] == '\\' {
        TailDangles(pattern, i + 2, current + [pattern[i + 1]]);
      } else if pattern[i] == '[' {
        SkipKept(pattern, i + 1);
        TailDangles(pattern, SkipClass(pattern, i + 1), "");
      } else {
        TailDangles(pattern, i + 1, if Interrupts(pattern[i]) then "" else current + [pattern[i]]);
      }
    }
  }

  lemma {:induction false} HeadDangles(pattern: string, i: nat, current: string)
    requires i <= |pattern| && Stops(pattern, i)
    ensures HeadFrom(pattern + ESCAPE, i, current) == HeadFrom(pattern, i, current)
    decreases |pattern| - i
  {
    if i < |pattern| {
      if pattern[i] == '\\' {
        HeadDangles(pattern, i + 2, current + [pattern[i + 1]]);
      } else if pattern[i] != '[' && !Interrupts(pattern[i]) {
        HeadDangles(pattern, i + 1, current + [pattern[i]]);
      }
    }
  }

  lemma {:induction false} LongestDangles(pattern: string, i: nat, current: string, longest: string)
    requires i <= |pattern| && Stops(pattern, i)
    ensures LongestFrom(pattern + ESCAPE, i, current, longest) == LongestFrom(pattern, i, current, longest)
    decreases |pattern| - i
  {
    if i < |pattern| {
      if pattern[i] == '\\' {
        LongestDangles(pattern, i + 2, current + [pattern[i + 1]], longest);
      } else if pattern[i] == '[' {
        SkipKept(pattern, i + 1);
        LongestDangles(pattern, SkipClass(pattern, i + 1), "", Longer(current, longest));
      } else if Interrupts(pattern[i]) {
        LongestDangles(pattern, i + 1, "", Longer(current, longest));
      } else {
        LongestDangles(pattern, i + 1, current + [pattern[i]], longest);
      }
    }
  }

  lemma {:induction false} StopsBehindStars(pattern: string, i: nat)
    requires i <= |pattern| && Stops(pattern, i)
    ensures Stops(pattern, AfterStars(pattern, i))
    decreases |pattern| - i
  {
    if At(pattern, i, '*') { StopsBehindStars(pattern, i + 1); }
  }

  /** One token of the pattern, with the escape far behind it. */
  lemma TokenKept(pattern: string, i: nat)
    requires i < |pattern| && Stops(pattern, i)
    ensures NextToken(pattern + ESCAPE, i) == NextToken(pattern, i) && Stops(pattern, NextToken(pattern, i).1)
  {
    var p := pattern + ESCAPE;
    assert p[i] == pattern[i];
    if pattern[i] == '[' {
      assert Negated(p, i) == Negated(pattern, i);
      ClassKept(pattern, i + 1 + (if Negated(pattern, i) then 1 else 0), false);
    } else if pattern[i] == '*' && At(pattern, i + 1, '*') {
      StarsKept(pattern, i + 2);
      StopsBehindStars(pattern, i + 2);
    }
  }

  lemma {:induction false} TokensDangle(pattern: string, i: nat)
    requires i <= |pattern| && Stops(pattern, i)
    ensures Tokens(pattern + ESCAPE, i) == Tokens(pattern, i) + [Literal('\\')]
    decreases |pattern| - i
  {
    hide Stops, NextToken;
    if i == |pattern| {
      LastToken(pattern);
    } else {
      TokenKept(pattern, i);
      var (token, next) := NextToken(pattern, i);
      TokensDangle(pattern, next);
      assert [token] + (Tokens(pattern, next) + [Literal('\\')]) == [token] + Tokens(pattern, next) + [Literal('\\')];
    }
  }

  lemma LastToken(pattern: string)
    ensures Tokens(pattern + ESCAPE, |pattern|) == [Literal('\\')]
  {
    var p := pattern + ESCAPE;
    assert NextToken(p, |pattern|) == (Literal('\\'), |p|) && Tokens(p, |p|) == [];
    assert [Literal('\\')] + [] == [Literal('\\')];
  }

  lemma TextKept(pattern: string, text: string)
    requires text != "" && '\\' !in text
    ensures HasText(pattern + ESCAPE, text) <==> HasText(pattern, text)
  {
    var p := pattern + ESCAPE;
    if a: nat :| 0 <= a <= |p| && Within(p, text, a) {
      assert text[|text| - 1] == p[a..a + |text|][|text| - 1];
      assert a + |text| <= |pattern| && pattern[a..a + |text|] == text;
      assert Within(pattern, text, a);
    }
    if a: nat :| 0 <= a <= |pattern| && Within(pattern, text, a) {
      assert p[a..a + |text|] == text;
      assert Within(p, text, a);
    }
  }

  /** The prefilters do not see the dangling escape. */
  lemma SamePrefilters(pattern: string)
    requires Stops(pattern, 0) && '{' !in pattern
    ensures NewGlob(pattern + ESCAPE, false) == NewGlob(pattern, false)
  {
    TailDangles(pattern, 0, "");
    HeadDangles(pattern, 0, "");
    LongestDangles(pattern, 0, "", "");
    TextKept(pattern, "**");
    TextKept(pattern, "**/");
    assert '{' !in pattern + ESCAPE;
  }

  predicate AllEscapes(text: string) { forall i | 0 <= i < |text| :: text[i] == '\\' }

  /** A text shifted by one escape is itself only if it is made of escapes. */
  lemma {:induction false} Shifted(value: string, text: string, i: nat)
    requires EndsWith(value, text) && EndsWith(value + ESCAPE, text) && i < |text|
    ensures text[|text| - 1 - i] == '\\'
    decreases i
  {
    var v := value + ESCAPE;
    assert v[|v| - |text|..][|text| - 1 - i] == text[|text| - 1 - i];
    if i > 0 {
      Shifted(value, text, i - 1);
      assert value[|value| - |text|..][|text| - i] == text[|text| - i];
    }
  }

  lemma EscapesShift(value: string, text: string)
    requires EndsWith(value, text)
    ensures EndsWith(value + ESCAPE, text) <==> AllEscapes(text)
  {
    var v := value + ESCAPE;
    if EndsWith(v, text) {
      forall i | 0 <= i < |text| ensures text[i] == '\\' { Shifted(value, text, |text| - 1 - i); }
    }
    if AllEscapes(text) {
      var end := v[|v| - |text|..];
      forall i | 0 <= i < |text| ensures end[i] == text[i] {
        if i < |text| - 1 { assert end[i] == value[|value| - |text|..][i + 1]; }
      }
    }
  }

  /** What a dangling escape matches: a backslash behind what the pattern in front of it matches. */
  lemma DanglingMeans(pattern: string, value: string)
    requires Stops(pattern, 0) && '{' !in pattern
    ensures Matching(pattern + ESCAPE, value + ESCAPE) <==> Matching(pattern, value)
    ensures Matching(pattern + ESCAPE, value) ==> EndsWith(value, ESCAPE)
  {
    NoLeafGroup(pattern);
    NoLeafGroup(pattern + ESCAPE);
    MatchingLeaf(pattern, value);
    MatchingLeaf(pattern + ESCAPE, value);
    MatchingLeaf(pattern + ESCAPE, value + ESCAPE);
    TokensDangle(pattern, 0);
    var tokens := Tokens(pattern, 0);
    assert Literals(ESCAPE) == [Literal('\\')];
    LiteralsMean(ESCAPE, ESCAPE);
    if Matching(pattern, value) { BothMean(tokens, Literals(ESCAPE), value, ESCAPE); }
    if Means(tokens + Literals(ESCAPE), value + ESCAPE) {
      var k := MeansBoth(tokens, Literals(ESCAPE), value + ESCAPE);
      LiteralsMean(ESCAPE, (value + ESCAPE)[k..]);
      assert (value + ESCAPE)[..k] == value;
    }
    if Means(tokens + Literals(ESCAPE), value) {
      var k := MeansBoth(tokens, Literals(ESCAPE), value);
      LiteralsMean(ESCAPE, value[k..]);
    }
  }

  /** Behind an escape at the end the prefilters pass exactly the values whose required end consists of escapes. */
  lemma DanglingPasses(pattern: string, value: string)
    requires Stops(pattern, 0) && Ordinary(pattern) && '{' !in pattern && Matching(pattern, value)
    ensures Passes(NewGlob(pattern + ESCAPE, false), value + ESCAPE)
      <==> (Tail(pattern).Some? ==> AllEscapes(Tail(pattern).value))
  {
    hide Stops, Ordinary, HasText, EndsWith, Head, Tail, Needle;
    SamePrefilters(pattern);
    NoLeafGroup(pattern);
    OrdinaryAligned(pattern);
    PrefiltersSound(pattern, value);
    var matcher := NewGlob(pattern, false);
    assert value <= value + ESCAPE;
    if matcher.needle.Some? { WithinLonger(value, ESCAPE, matcher.needle.value); }
    if matcher.tail.Some? { EscapesShift(value, matcher.tail.value); }
  }

  /** With an escape at the end of an ordinary pattern without groups, the prefilters reject no accepted value if
      and only if the pattern matches nothing or the required end is made of escapes only. */
  lemma DanglingExact(pattern: string)
    requires START.Over(pattern).ordinary && START.Over(pattern).mode == PLAIN && '{' !in pattern
    ensures (forall value | Matching(pattern + ESCAPE, value) :: Passes(NewGlob(pattern + ESCAPE, false), value))
      <==> !Fillable(Tokens(pattern, 0)) || (Tail(pattern).Some? ==> AllEscapes(Tail(pattern).value))
  {
    hide Matching, Passes, Fillable, AllEscapes, Stops;
    assert pattern[0..] == pattern;
    ClosedStops(pattern, 0, START);
    NoLeafGroup(pattern);
    if Fillable(Tokens(pattern, 0)) {
      var value := Filled(Tokens(pattern, 0));
      MatchingLeaf(pattern, value);
      DanglingMeans(pattern, value);
      DanglingPasses(pattern, value);
    }
    forall value | Matching(pattern + ESCAPE, value)
      ensures Fillable(Tokens(pattern, 0))
      ensures Passes(NewGlob(pattern + ESCAPE, false), value) <==> (Tail(pattern).Some? ==> AllEscapes(Tail(pattern).value))
    {
      DanglingMeans(pattern, value);
      var front := value[..|value| - 1];
      assert value == front + ESCAPE;
      DanglingMeans(pattern, front);
      MatchingLeaf(pattern, front);
      MeansFillable(Tokens(pattern, 0), front);
      DanglingPasses(pattern, front);
    }
  }

  const GROUPED := "{a,**}/b"

  lemma GroupedClose()
    ensures FindClose(GROUPED, 3, PLAIN, 1, 3) == Some((["**"], 5))
  {
    var p := GROUPED;
    assert p[3..5] == "**";
    assert FindClose(p, 5, PLAIN, 1, 3) == Some((["**"], 5));
    assert FindClose(p, 3, PLAIN, 1, 3) == FindClose(p, 4, PLAIN, 1, 3) == FindClose(p, 5, PLAIN, 1, 3);
  }

  lemma GroupedGroup()
    ensures FirstGroup(GROUPED) == Some((0, ["a", "**"], 5))
  {
    var p := GROUPED;
    GroupedClose();
    assert p[1..2] == "a";
    assert FindClose(p, 2, PLAIN, 1, 1) == Preceded("a", FindClose(p, 3, PLAIN, 1, 3));
    assert FindClose(p, 1, PLAIN, 1, 1) == FindClose(p, 2, PLAIN, 1, 1);
    assert ["a"] + ["**"] == ["a", "**"];
  }

  lemma GroupedExpands()
    ensures "**/b" in Leaves(GROUPED)
  {
    hide FindClose, FindOpen, FirstGroup;
    var p := GROUPED;
    GroupedGroup();
    assert Replaced(p, 0, "**", 5) == "**/b";
    NoLeafGroup("**/b");
    assert "**/b" in Leaves("**/b");
    var alternatives := ["a", "**"];
    assert alternatives[1..] == ["**"];
    assert "**/b" in LeavesOf(p, 0, ["**"], 5);
    assert "**/b" in LeavesOf(p, 0, alternatives, 5);
  }

  lemma NoLeafGroup(pattern: string)
    requires '{' !in pattern
    ensures FirstGroup(pattern).None?
  {
    NoGroup(pattern, 0, PLAIN);
  }

  lemma GroupedRun()
    ensures TailFrom(GROUPED, 0, "") == "/b" && !HasText(GROUPED, "**/")
  {
    var p := GROUPED;
    assert TailFrom(p, 6, "") == "/b" by { assert "" + ['/'] == "/" && "/" + ['b'] == "/b"; }
    assert TailFrom(p, 3, "") == TailFrom(p, 4, "") == TailFrom(p, 5, "") == TailFrom(p, 6, "");
    assert TailFrom(p, 2, "a") == TailFrom(p, 3, "") && "" + ['a'] == "a";
    assert TailFrom(p, 0, "") == TailFrom(p, 1, "") == TailFrom(p, 2, "a");
    forall i | 0 <= i <= |p| ensures !Within(p, "**/", i) {
      if i + 3 <= |p| {
        var here := p[i..i + 3];
        assert here[0] == p[i] && here[1] == p[i + 1] && here[2] == p[i + 2];
        assert p[i + 1] != '*' || p[i + 2] != '/';
      }
    }
  }

  lemma GroupedTokens()
    ensures Tokens("**/b", 0) == [DoubleStar, Literal('b')] && Means(Tokens("**/b", 0), "b")
  {
    var leaf := "**/b";
    assert AfterStars(leaf, 2) == 2 && AfterDoubleStar(leaf, 0) == 3;
    assert Tokens(leaf, 3) == [Literal('b')] + Tokens(leaf, 4) == [Literal('b')];
    assert Tokens(leaf, 0) == [DoubleStar] + [Literal('b')];
    assert Joined(["b"]) == "b" && Joined(["", "b"]) == "b";
    assert Splits([DoubleStar, Literal('b')], "b", ["", "b"]);
  }

  /** Such a pattern: a double star stands in front of the slash only once the group is expanded. */
  lemma GroupRejects()
    ensures SlashAbsorbed(GROUPED)
    ensures Matching(GROUPED, "b") && !Matcher.Matches(New(GROUPED, false), GROUPED, "b")
  {
    hide Leaves, Tokens, TailFrom, HasText, Means, HeadFrom, Needle, EndsInRun, Fillable, FindOpen;
    GroupedExpands();
    GroupedRun();
    GroupedTokens();
    RunExample();
    assert GROUPED[0] == '{' && "/b"[1..] == "b";
  }

  lemma RunExample()
    ensures var tokens := [DoubleStar, Literal('b')]; EndsInRun(tokens, "b") && Fillable(tokens)
  {
    var tokens := [DoubleStar, Literal('b')];
    assert tokens[1..] == Literals("b");
  }
}
