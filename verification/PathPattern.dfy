/** Pattern validation: syntax errors with their position and the one-pass limit on brace expansion. */
module PathPattern {
  import opened Wrappers
  import opened Braces
  import opened BraceCount
  import opened Glob

  datatype ErrorKind =
    | Empty
    | DanglingEscape
    | UnclosedCharacterClass
    | InvalidCharacterRange
    | EmptyBraceAlternative
    | UnclosedBrace
    | UnexpectedClosingBrace
    | ExpansionLimitExceeded

  datatype PatternError = PatternError(kind: ErrorKind, position: nat)

  datatype BraceState = BraceState(start: nat, completed: nat, current: nat, hasToken: bool)

  // Syntax without any limit -------------------------------------------------------------------

  /** `class_member`. */
  function ClassMember(pattern: string, i: nat): (r: Result<(char, nat), PatternError>)
    ensures r.Ok? ==> i < r.value.1 <= |pattern| && r.value.1 <= i + 2
    ensures r.Ok? ==> if pattern[i] == '\\' then r.value.1 == i + 2 else r.value.1 == i + 1
  {
    if i >= |pattern| then Err(PatternError(UnclosedCharacterClass, if i == 0 then 0 else i - 1))
    else if pattern[i] != '\\' then Ok((pattern[i], i + 1))
    else if i + 1 >= |pattern| then Err(PatternError(DanglingEscape, i))
    else Ok((pattern[i + 1], i + 2))
  }

  /** One member or range of a class and the index after it. */
  function ClassRange(pattern: string, i: nat): (r: Result<nat, PatternError>)
    ensures r.Ok? ==> i < r.value <= |pattern|
  {
    var (low, next) :- ClassMember(pattern, i);
    if At(pattern, next, '-') && !At(pattern, next + 1, ']') then
      var (high, end) :- ClassMember(pattern, next + 1);
      if low > high then Err(PatternError(InvalidCharacterRange, next)) else Ok(end)
    else Ok(next)
  }

  function ClassRest(pattern: string, start: nat, i: nat, hasMember: bool): (r: Result<nat, PatternError>)
    ensures r.Ok? ==> i < r.value <= |pattern|
    decreases |pattern| - i
  {
    if i >= |pattern| then Err(PatternError(UnclosedCharacterClass, start))
    else if pattern[i] == ']' && hasMember then Ok(i + 1)
    else
      var next :- ClassRange(pattern, i);
      ClassRest(pattern, start, next, true)
  }

  /** The first member of the class that opens at `start`. */
  function FirstMember(pattern: string, start: nat): nat {
    if At(pattern, start + 1, '!') || At(pattern, start + 1, '^') then start + 2 else start + 1
  }

  function ClassEnd(pattern: string, start: nat): (r: Result<nat, PatternError>)
    ensures r.Ok? ==> start + 1 < r.value <= |pattern|
  {
    ClassRest(pattern, start, FirstMember(pattern, start), false)
  }

  /** Every range runs upwards. */
  ghost predicate Upwards(members: seq<Member>) { forall m | m in members :: m.low <= m.high }

  /** Where a class error points: a last byte that escapes nothing, the dash of a range that runs downwards, and for a
      class that never closes its opening bracket or, inside a range, the last byte. */
  ghost predicate PointsAt(pattern: string, start: nat, error: PatternError) {
    match error.kind
    case DanglingEscape => error.position + 1 == |pattern| && pattern[error.position] == '\\'
    case InvalidCharacterRange => error.position < |pattern| && pattern[error.position] == '-'
    case UnclosedCharacterClass => error.position == start || (error.position + 1 == |pattern| && pattern[error.position] == '-')
    case _ => false
  }

  lemma RangeAgrees(pattern: string, start: nat, i: nat)
    requires i < |pattern|
    ensures ClassRange(pattern, i).Ok?
      <==> NextMember(pattern, i).Some? && NextMember(pattern, i).value.0.low <= NextMember(pattern, i).value.0.high
    ensures ClassRange(pattern, i).Ok? ==> ClassRange(pattern, i).value == NextMember(pattern, i).value.1
    ensures ClassRange(pattern, i).Err? ==> PointsAt(pattern, start, ClassRange(pattern, i).error)
  {
  }

  lemma {:induction false} RestAgrees(pattern: string, start: nat, i: nat, hasMember: bool)
    ensures ClassRest(pattern, start, i, hasMember).Ok?
      <==> ClassMembers(pattern, i, hasMember).Some? && Upwards(ClassMembers(pattern, i, hasMember).value.0)
    ensures ClassRest(pattern, start, i, hasMember).Ok? ==>
      ClassRest(pattern, start, i, hasMember).value == ClassMembers(pattern, i, hasMember).value.1
    ensures ClassRest(pattern, start, i, hasMember).Err? ==>
      PointsAt(pattern, start, ClassRest(pattern, start, i, hasMember).error)
    decreases |pattern| - i
  {
    if i < |pattern| && !(pattern[i] == ']' && hasMember) {
      RangeAgrees(pattern, start, i);
      if NextMember(pattern, i).Some? {
        var (member, next) := NextMember(pattern, i).value;
        RestAgrees(pattern, start, next, true);
        hide ClassRange, NextMember, PointsAt;
        var rest := ClassMembers(pattern, next, true);
        if rest.Some? { assert forall m :: m in [member] + rest.value.0 <==> m == member || m in rest.value.0; }
      }
    }
  }

  /** Validation accepts a class exactly if the glob reads it as a class with upward ranges, and both end it at the
      same byte; an error points at its cause. */
  lemma ClassAgrees(pattern: string, start: nat)
    ensures ClassEnd(pattern, start).Ok?
      <==> ClassAt(pattern, start).Some? && Upwards(ClassAt(pattern, start).value.0.members)
    ensures ClassEnd(pattern, start).Ok? ==> ClassEnd(pattern, start).value == ClassAt(pattern, start).value.1
    ensures ClassEnd(pattern, start).Err? ==> PointsAt(pattern, start, ClassEnd(pattern, start).error)
  {
    RestAgrees(pattern, start, FirstMember(pattern, start), false);
  }

  /** The open groups as far as syntax needs them: where they start and whether the alternative has a token. */
  type Open = seq<(nat, bool)>

  function Mark(open: Open, token: bool): (marked: Open)
    ensures |marked| == |open|
  {
    if open == [] then [] else open[..|open| - 1] + [(open[|open| - 1].0, token)]
  }

  /** The first syntax error at or after `i`, when expansions may be as many as they like. */
  function Syntax(pattern: string, i: nat, open: Open): Option<PatternError>
    requires i <= |pattern|
    decreases |pattern| - i
  {
    if i == |pattern| then
      if open == [] then None else Some(PatternError(UnclosedBrace, open[|open| - 1].0))
    else
      match pattern[i]
      case '\\' =>
        if i + 1 == |pattern| then Some(PatternError(DanglingEscape, i)) else Syntax(pattern, i + 2, Mark(open, true))
      case '[' =>
        (match ClassEnd(pattern, i)
         case Err(error) => Some(error)
         case Ok(next) => Syntax(pattern, next, Mark(open, true)))
      case '{' => Syntax(pattern, i + 1, open + [(i, false)])
      case ',' =>
        if open != [] && !open[|open| - 1].1 then Some(PatternError(EmptyBraceAlternative, i))
        else Syntax(pattern, i + 1, Mark(open, false))
      case '}' =>
        if open == [] then Some(PatternError(UnexpectedClosingBrace, i))
        else if !open[|open| - 1].1 then Some(PatternError(EmptyBraceAlternative, i))
        else Syntax(pattern, i + 1, Mark(open[..|open| - 1], true))
      case _ => Syntax(pattern, i + 1, Mark(open, true))
  }

  /** No class from `i` on has `]` as its first member. */
  predicate OrdinaryClasses(pattern: string, i: nat)
    requires i <= |pattern|
    decreases |pattern| - i
  {
    if i == |pattern| then true
    else if pattern[i] == '\\' then i + 1 == |pattern| || OrdinaryClasses(pattern, i + 2)
    else if pattern[i] == '[' then
      !At(pattern, FirstMember(pattern, i), ']')
      && (ClassEnd(pattern, i).Ok? ==> OrdinaryClasses(pattern, ClassEnd(pattern, i).value))
    else OrdinaryClasses(pattern, i + 1)
  }

  /** As validation reads the pattern from `i` on, there is no brace outside classes. */
  predicate Braceless(pattern: string, i: nat)
    requires i <= |pattern|
    decreases |pattern| - i
  {
    if i == |pattern| then true
    else if pattern[i] == '\\' then i + 1 == |pattern| || Braceless(pattern, i + 2)
    else if pattern[i] == '[' then ClassEnd(pattern, i).Ok? ==> Braceless(pattern, ClassEnd(pattern, i).value)
    else pattern[i] != '{' && pattern[i] != '}' && Braceless(pattern, i + 1)
  }

  // The scanner of the matcher sees the same tokens ---------------------------------------------

  ghost predicate Scanned(pattern: string, i: nat, stack: Stack, mode: Mode)
    requires i <= |pattern|
  {
    Scan(START, pattern[..i]) == Some(State(stack, mode))
  }

  lemma ScanNext(pattern: string, i: nat, stack: Stack, mode: Mode)
    requires i < |pattern| && Scanned(pattern, i, stack, mode)
    ensures Scan(START, pattern[..i + 1]) == Advance(State(stack, mode), pattern[i])
  {
    assert pattern[..i + 1][..i] == pattern[..i] && pattern[..i + 1][i] == pattern[i];
  }

  lemma ScanEscape(pattern: string, i: nat, stack: Stack, inClass: bool)
    requires i + 1 < |pattern| && pattern[i] == '\\' && Scanned(pattern, i, stack, Mode(false, inClass))
    ensures Scanned(pattern, i + 2, stack, Mode(false, inClass))
  {
    ScanNext(pattern, i, stack, Mode(false, inClass));
    ScanNext(pattern, i + 1, stack, Mode(true, inClass));
  }

  const IN_CLASS := Mode(false, true)

  lemma ScanMember(pattern: string, i: nat, stack: Stack)
    requires i < |pattern| && Scanned(pattern, i, stack, IN_CLASS)
    requires ClassMember(pattern, i).Ok? && pattern[i] != ']'
    ensures Scanned(pattern, ClassMember(pattern, i).value.1, stack, IN_CLASS)
  {
    if pattern[i] == '\\' {
      ScanEscape(pattern, i, stack, true);
    } else {
      ScanNext(pattern, i, stack, IN_CLASS);
    }
  }

  lemma {:induction false} ScanClassRest(pattern: string, start: nat, i: nat, hasMember: bool, stack: Stack)
    requires i <= |pattern| && Scanned(pattern, i, stack, IN_CLASS)
    requires ClassRest(pattern, start, i, hasMember).Ok? && (hasMember || !At(pattern, i, ']'))
    ensures Scanned(pattern, ClassRest(pattern, start, i, hasMember).value, stack, PLAIN)
    decreases |pattern| - i
  {
    hide Scanned;
    if pattern[i] == ']' && hasMember {
      ScanClose(pattern, i, stack);
    } else {
      ScanMember(pattern, i, stack);
      var next := ClassMember(pattern, i).value.1;
      if At(pattern, next, '-') && !At(pattern, next + 1, ']') {
        ScanMember(pattern, next, stack);
        ScanMember(pattern, next + 1, stack);
      }
      ScanClassRest(pattern, start, ClassRange(pattern, i).value, true, stack);
    }
  }

  lemma ScanClose(pattern: string, i: nat, stack: Stack)
    requires i < |pattern| && pattern[i] == ']' && Scanned(pattern, i, stack, IN_CLASS)
    ensures Scanned(pattern, i + 1, stack, PLAIN)
  {
    ScanNext(pattern, i, stack, IN_CLASS);
  }

  /** An ordinary class ends for the scanner where it ends for the validator. */
  lemma ScanClass(pattern: string, i: nat, stack: Stack)
    requires i < |pattern| && pattern[i] == '[' && Scanned(pattern, i, stack, PLAIN)
    requires ClassEnd(pattern, i).Ok? && !At(pattern, FirstMember(pattern, i), ']')
    ensures Scanned(pattern, ClassEnd(pattern, i).value, stack, PLAIN)
  {
    ScanNext(pattern, i, stack, PLAIN);
    if FirstMember(pattern, i) == i + 2 {
      ScanNext(pattern, i + 1, stack, IN_CLASS);
    }
    ScanClassRest(pattern, i, FirstMember(pattern, i), false, stack);
  }

  /** A pattern without syntax errors is scanned to its end, outside all groups. */
  lemma {:induction false} SyntaxCountable(pattern: string, i: nat, open: Open, stack: Stack)
    requires i <= |pattern| && Scanned(pattern, i, stack, PLAIN) && stack.Depth() == |open|
    requires Syntax(pattern, i, open).None? && OrdinaryClasses(pattern, i)
    ensures Countable(pattern)
    decreases |pattern| - i
  {
    hide Scanned, Stack.Absorb;
    if i == |pattern| {
      SyntaxEnd(pattern, stack);
    } else if pattern[i] == '\\' {
      ScanEscape(pattern, i, stack, false);
      SyntaxCountable(pattern, i + 2, Mark(open, true), stack);
    } else if pattern[i] == '[' {
      ScanClass(pattern, i, stack);
      SyntaxCountable(pattern, ClassEnd(pattern, i).value, Mark(open, true), stack);
    } else {
      var next := ScanPlain(pattern, i, stack);
      SyntaxCountable(pattern, i + 1, OpenAfter(open, i, pattern[i]), next);
    }
  }

  function OpenAfter(open: Open, i: nat, byte: char): Open
    requires byte == '}' ==> open != []
  {
    match byte
    case '{' => open + [(i, false)]
    case ',' => Mark(open, false)
    case '}' => Mark(open[..|open| - 1], true)
    case _ => Mark(open, true)
  }

  lemma SyntaxEnd(pattern: string, stack: Stack)
    requires Scanned(pattern, |pattern|, stack, PLAIN) && stack.Depth() == 0
    ensures Countable(pattern)
  {
    assert pattern[..|pattern|] == pattern;
    assert Counts(pattern, stack.current);
  }

  /** A byte outside classes and escapes. */
  lemma ScanPlain(pattern: string, i: nat, stack: Stack) returns (next: Stack)
    requires i < |pattern| && Scanned(pattern, i, stack, PLAIN)
    requires pattern[i] != '\\' && pattern[i] != '[' && (pattern[i] == '}' ==> stack.Group?)
    ensures Scanned(pattern, i + 1, next, PLAIN)
    ensures Advance(State(stack, PLAIN), pattern[i]) == Some(State(next, PLAIN))
    ensures next.Depth() == stack.Depth() + (if pattern[i] == '{' then 1 else if pattern[i] == '}' then -1 else 0)
  {
    ScanNext(pattern, i, stack, PLAIN);
    next := Advance(State(stack, PLAIN), pattern[i]).value.stack;
    if pattern[i] == '}' { AbsorbDepth(stack.outer, stack.completed + stack.current); }
  }

  // The validator ------------------------------------------------------------------------------

  ghost function OpenOf(braces: seq<BraceState>): (open: Open)
    ensures |open| == |braces|
  {
    seq(|braces|, k requires 0 <= k < |braces| => (braces[k].start, braces[k].hasToken))
  }

  ghost function StackOf(braces: seq<BraceState>, expansions: nat): (stack: Stack)
    ensures stack.Depth() == |braces|
  {
    if braces == [] then Base(expansions)
    else
      var top := braces[|braces| - 1];
      Group(StackOf(braces[..|braces| - 1], expansions), top.completed, top.current)
  }

  function Marked(braces: seq<BraceState>): seq<BraceState> {
    if braces == [] then [] else braces[..|braces| - 1] + [braces[|braces| - 1].(hasToken := true)]
  }

  lemma MarkedOf(braces: seq<BraceState>, expansions: nat)
    ensures StackOf(Marked(braces), expansions) == StackOf(braces, expansions)
    ensures OpenOf(Marked(braces)) == Mark(OpenOf(braces), true)
  {
  }

  /** What the loop of `validate` knows at `index`. */
  ghost predicate Progress(pattern: string, index: nat, braces: seq<BraceState>, expansions: nat) {
    && index <= |pattern|
    && Syntax(pattern, 0, []) == Syntax(pattern, index, OpenOf(braces))
    && (OrdinaryClasses(pattern, 0) ==>
          && OrdinaryClasses(pattern, index)
          && Scanned(pattern, index, StackOf(braces, expansions), PLAIN)
          && Positive(StackOf(braces, expansions)))
  }

  /** The verdict on a pattern without limits on the way: only a count over the limit turns it into an error. */
  ghost predicate OverLimit(pattern: string) {
    OrdinaryClasses(pattern, 0) && Syntax(pattern, 0, []).None? ==> |Leaves(pattern)| > MAX_ALTERNATIVE_EXPANSIONS
  }

  lemma Overflows(pattern: string, i: nat, stack: Stack)
    requires i <= |pattern| && Scanned(pattern, i, stack, PLAIN) && Positive(stack) && Exceeds(stack)
    requires Syntax(pattern, 0, []).None? && OrdinaryClasses(pattern, 0)
    ensures |Leaves(pattern)| > MAX_ALTERNATIVE_EXPANSIONS
  {
    hide Syntax, OrdinaryClasses;
    assert pattern[..0] == "";
    SyntaxCountable(pattern, 0, [], Base(1));
    var n: nat :| Counts(pattern, n);
    LeavesCounted(pattern, n);
    assert pattern == pattern[..i] + pattern[i..];
    ScanAppend(START, pattern[..i], pattern[i..]);
    ExceedsScan(State(stack, PLAIN), pattern[i..]);
  }

  /** `validate_character_class`. */
  method ValidateCharacterClass(pattern: string, start: nat) returns (r: Result<nat, PatternError>)
    requires start < |pattern|
    ensures r == ClassEnd(pattern, start)
  {
    hide ClassMember;
    var index := start + 1;
    if At(pattern, index, '!') || At(pattern, index, '^') {
      index := index + 1;
    }
    var members := 0;
    while index < |pattern|
      invariant members >= 0 && start < index
      invariant ClassEnd(pattern, start) == ClassRest(pattern, start, index, members > 0)
      decreases |pattern| - index
    {
      if pattern[index] == ']' && members > 0 {
        return Ok(index + 1);
      }
      var low :- ClassMember(pattern, index);
      var next := low.1;
      members := members + 1;
      if At(pattern, next, '-') && !At(pattern, next + 1, ']') {
        var high :- ClassMember(pattern, next + 1);
        if low.0 > high.0 {
          return Err(PatternError(InvalidCharacterRange, next));
        }
        next := high.1;
      }
      index := next;
    }
    return Err(PatternError(UnclosedCharacterClass, start));
  }

  /** `bounded_add`, `bounded_multiply` and `bounded`; 64-bit saturation stays over the limit. */
  function Bounded(value: nat, position: nat): Result<nat, PatternError> {
    if value <= MAX_ALTERNATIVE_EXPANSIONS then Ok(value) else Err(PatternError(ExpansionLimitExceeded, position))
  }

  /** `BraceState::finish_alternative`. */
  method FinishAlternative(state: BraceState, position: nat) returns (r: Result<BraceState, PatternError>)
    ensures r.Err? ==>
      r.error == PatternError(if state.hasToken then ExpansionLimitExceeded else EmptyBraceAlternative, position)
    ensures r.Ok? <==> state.hasToken && state.completed + state.current <= 256
    ensures r.Ok? ==> r.value == BraceState(state.start, state.completed + state.current, 1, false)
  {
    if !state.hasToken {
      return Err(PatternError(EmptyBraceAlternative, position));
    }
    var completed :- Bounded(state.completed + state.current, position);
    return Ok(state.(completed := completed, current := 1, hasToken := false));
  }

  /** `BraceState::absorb` on the innermost open group. */
  function Absorbed(braces: seq<BraceState>, product: nat): seq<BraceState>
    requires braces != []
  {
    braces[..|braces| - 1] + [braces[|braces| - 1].(current := product, hasToken := true)]
  }

  lemma ProgressStarts(pattern: string)
    ensures Progress(pattern, 0, [], 1)
  {
    assert pattern[..0] == "";
    assert OpenOf([]) == [];
  }

  lemma ProgressEscape(pattern: string, index: nat, braces: seq<BraceState>, expansions: nat)
    requires Progress(pattern, index, braces, expansions) && index < |pattern| && pattern[index] == '\\'
    ensures index + 1 == |pattern| ==> Syntax(pattern, 0, []) == Some(PatternError(DanglingEscape, index))
    ensures index + 1 < |pattern| ==> Progress(pattern, index + 2, Marked(braces), expansions)
  {
    hide Scanned, StackOf;
    MarkedOf(braces, expansions);
    if index + 1 < |pattern| && OrdinaryClasses(pattern, 0) {
      ScanEscape(pattern, index, StackOf(braces, expansions), false);
    }
  }

  lemma ProgressClass(pattern: string, index: nat, braces: seq<BraceState>, expansions: nat)
    requires Progress(pattern, index, braces, expansions) && index < |pattern| && pattern[index] == '['
    ensures ClassEnd(pattern, index).Err? ==> Syntax(pattern, 0, []) == Some(ClassEnd(pattern, index).error)
    ensures ClassEnd(pattern, index).Ok? ==> Progress(pattern, ClassEnd(pattern, index).value, Marked(braces), expansions)
  {
    hide Scanned, StackOf, ClassEnd;
    MarkedOf(braces, expansions);
    if ClassEnd(pattern, index).Ok? && OrdinaryClasses(pattern, 0) {
      ScanClass(pattern, index, StackOf(braces, expansions));
    }
  }

  lemma ProgressOther(pattern: string, index: nat, braces: seq<BraceState>, expansions: nat)
    requires Progress(pattern, index, braces, expansions) && index < |pattern|
    requires pattern[index] !in {'\\', '[', '{', ',', '}'}
    ensures Progress(pattern, index + 1, Marked(braces), expansions)
  {
    hide Scanned, StackOf;
    MarkedOf(braces, expansions);
    if OrdinaryClasses(pattern, 0) {
      var next := ScanPlain(pattern, index, StackOf(braces, expansions));
    }
  }

  lemma ProgressOpen(pattern: string, index: nat, braces: seq<BraceState>, expansions: nat)
    requires Progress(pattern, index, braces, expansions) && index < |pattern| && pattern[index] == '{'
    ensures Progress(pattern, index + 1, braces + [BraceState(index, 0, 1, false)], expansions)
  {
    hide Scanned;
    var pushed := braces + [BraceState(index, 0, 1, false)];
    assert pushed[..|pushed| - 1] == braces;
    assert OpenOf(pushed) == OpenOf(braces) + [(index, false)];
    if OrdinaryClasses(pattern, 0) {
      var next := ScanPlain(pattern, index, StackOf(braces, expansions));
    }
  }

  /** The innermost group after its current alternative is finished. */
  function Finished(braces: seq<BraceState>): seq<BraceState>
    requires braces != []
  {
    var top := braces[|braces| - 1];
    braces[..|braces| - 1] + [BraceState(top.start, top.completed + top.current, 1, false)]
  }

  lemma ProgressComma(pattern: string, index: nat, braces: seq<BraceState>, expansions: nat)
    requires Progress(pattern, index, braces, expansions) && index < |pattern| && pattern[index] == ','
    ensures braces == [] ==> Progress(pattern, index + 1, braces, expansions)
    ensures braces != [] ==>
      var top := braces[|braces| - 1];
      if !top.hasToken then Syntax(pattern, 0, []) == Some(PatternError(EmptyBraceAlternative, index))
      else if top.completed + top.current > MAX_ALTERNATIVE_EXPANSIONS then OverLimit(pattern)
      else Progress(pattern, index + 1, Finished(braces), expansions)
  {
    hide Scanned, Leaves;
    if braces == [] {
      assert Mark(OpenOf(braces), false) == OpenOf(braces);
    } else {
      var top := braces[|braces| - 1];
      var updated := Finished(braces);
      assert updated[..|updated| - 1] == braces[..|braces| - 1];
      assert OpenOf(updated) == Mark(OpenOf(braces), false);
    }
    if OrdinaryClasses(pattern, 0) {
      var stack := StackOf(braces, expansions);
      var next := ScanPlain(pattern, index, stack);
      if Exceeds(stack) && Syntax(pattern, 0, []).None? { Overflows(pattern, index, stack); }
    }
  }

  /** The factor and the open groups after the innermost group has closed. */
  function Factor(below: seq<BraceState>, expansions: nat): nat {
    if below == [] then expansions else below[|below| - 1].current
  }

  function ClosedBraces(below: seq<BraceState>, product: nat): seq<BraceState> {
    if below == [] then [] else Absorbed(below, product)
  }

  function ClosedExpansions(below: seq<BraceState>, expansions: nat, product: nat): nat {
    if below == [] then product else expansions
  }

  lemma CloseStack(braces: seq<BraceState>, expansions: nat)
    requires braces != []
    ensures var top, below := braces[|braces| - 1], braces[..|braces| - 1];
      var product := Factor(below, expansions) * (top.completed + top.current);
      && OpenOf(ClosedBraces(below, product)) == Mark(OpenOf(braces)[..|braces| - 1], true)
      && StackOf(ClosedBraces(below, product), ClosedExpansions(below, expansions, product))
         == StackOf(braces, expansions).outer.Absorb(top.completed + top.current)
      && StackOf(braces, expansions).outer.Absorb(top.completed + top.current).current == product
  {
    var below := braces[..|braces| - 1];
    assert OpenOf(braces)[..|braces| - 1] == OpenOf(below);
    if below != [] {
      var product := Factor(below, expansions) * (braces[|braces| - 1].completed + braces[|braces| - 1].current);
      var absorbed := Absorbed(below, product);
      assert absorbed[..|absorbed| - 1] == below[..|below| - 1];
    }
  }

  lemma CloseScan(pattern: string, index: nat, stack: Stack)
    requires index < |pattern| && pattern[index] == '}' && stack.Group? && Positive(stack)
    requires Scanned(pattern, index, stack, PLAIN) && OrdinaryClasses(pattern, 0)
    ensures var count := stack.completed + stack.current;
      && Scanned(pattern, index + 1, stack.outer.Absorb(count), PLAIN)
      && Positive(stack.outer.Absorb(count))
      && (count > MAX_ALTERNATIVE_EXPANSIONS || stack.outer.Absorb(count).current > MAX_ALTERNATIVE_EXPANSIONS ==>
            OverLimit(pattern))
  {
    hide Scanned, Syntax, Leaves, OrdinaryClasses;
    var next := ScanPlain(pattern, index, stack);
    ExceedsStep(State(stack, PLAIN), '}');
    if Syntax(pattern, 0, []).None? {
      if Exceeds(stack) { Overflows(pattern, index, stack); }
      if Exceeds(next) { Overflows(pattern, index + 1, next); }
    }
  }

  lemma ProgressClose(pattern: string, index: nat, braces: seq<BraceState>, expansions: nat)
    requires Progress(pattern, index, braces, expansions) && index < |pattern| && pattern[index] == '}'
    ensures braces == [] ==> Syntax(pattern, 0, []) == Some(PatternError(UnexpectedClosingBrace, index))
    ensures braces != [] ==>
      var top, below := braces[|braces| - 1], braces[..|braces| - 1];
      var count := top.completed + top.current;
      var product := Factor(below, expansions) * count;
      if !top.hasToken then Syntax(pattern, 0, []) == Some(PatternError(EmptyBraceAlternative, index))
      else if count > MAX_ALTERNATIVE_EXPANSIONS || product > MAX_ALTERNATIVE_EXPANSIONS then OverLimit(pattern)
      else Progress(pattern, index + 1, ClosedBraces(below, product), ClosedExpansions(below, expansions, product))
  {
    hide Scanned, Leaves, OverLimit, ClosedBraces, ClosedExpansions, Factor, Stack.Absorb, Positive;
    if braces != [] && braces[|braces| - 1].hasToken {
      CloseStack(braces, expansions);
      if OrdinaryClasses(pattern, 0) {
        CloseScan(pattern, index, StackOf(braces, expansions));
      } else {
        NoLimitClaim(pattern);
      }
    }
  }

  lemma NoLimitClaim(pattern: string)
    requires !OrdinaryClasses(pattern, 0)
    ensures OverLimit(pattern)
  {
  }

  lemma ProgressEnds(pattern: string, braces: seq<BraceState>, expansions: nat)
    requires Progress(pattern, |pattern|, braces, expansions) && expansions <= MAX_ALTERNATIVE_EXPANSIONS
    ensures braces != [] ==> Syntax(pattern, 0, []) == Some(PatternError(UnclosedBrace, braces[|braces| - 1].start))
    ensures braces == [] ==> Syntax(pattern, 0, []).None?
    ensures braces == [] && OrdinaryClasses(pattern, 0) ==> |Leaves(pattern)| == expansions
  {
    if braces == [] && OrdinaryClasses(pattern, 0) {
      assert pattern[..|pattern|] == pattern;
      LeavesCounted(pattern, expansions);
    }
  }

  /** `validate`: the first syntax error, or the limit, or acceptance.  For patterns whose classes are
      ordinary the limit is exactly 256 expanded leaves. */
  method Validate(pattern: string) returns (r: Option<PatternError>)
    ensures pattern == "" ==> r == Some(PatternError(Empty, 0))
    ensures pattern != "" && r.None? ==> Syntax(pattern, 0, []).None?
    ensures pattern != "" && r.Some? && r.value.kind != ExpansionLimitExceeded ==> r == Syntax(pattern, 0, [])
    ensures pattern != "" && OrdinaryClasses(pattern, 0) && Syntax(pattern, 0, []).None? ==>
      && (r.None? <==> |Leaves(pattern)| <= 256)
      && (r.Some? <==> r.Some? && r.value.kind == ExpansionLimitExceeded)
    ensures pattern != "" && Braceless(pattern, 0) ==> r == Syntax(pattern, 0, [])
  {
    hide Progress, Syntax, OrdinaryClasses, Leaves;
    if pattern == "" {
      return Some(PatternError(Empty, 0));
    }
    var braces: seq<BraceState> := [];
    var expansions, index := 1, 0;
    ProgressStarts(pattern);
    while index < |pattern|
      invariant 0 <= index <= |pattern| && 0 <= expansions <= MAX_ALTERNATIVE_EXPANSIONS
      invariant Progress(pattern, index, braces, expansions)
      invariant Braceless(pattern, 0) ==> braces == [] && Braceless(pattern, index)
      decreases |pattern| - index
    {
      match pattern[index]
      case '\\' =>
        ProgressEscape(pattern, index, braces, expansions);
        if index + 1 == |pattern| {
          return Some(PatternError(DanglingEscape, index));
        }
        braces := Marked(braces);
        index := index + 2;
      case '[' =>
        ProgressClass(pattern, index, braces, expansions);
        var members := ValidateCharacterClass(pattern, index);
        if members.Err? {
          return Some(members.error);
        }
        braces := Marked(braces);
        index := members.value;
      case '{' =>
        ProgressOpen(pattern, index, braces, expansions);
        braces := braces + [BraceState(index, 0, 1, false)];
        index := index + 1;
      case ',' =>
        ProgressComma(pattern, index, braces, expansions);
        if braces != [] {
          var finished := FinishAlternative(braces[|braces| - 1], index);
          if finished.Err? {
            return Some(finished.error);
          }
          braces := braces[..|braces| - 1] + [finished.value];
        }
        index := index + 1;
      case '}' =>
        ProgressClose(pattern, index, braces, expansions);
        if braces == [] {
          return Some(PatternError(UnexpectedClosingBrace, index));
        }
        var finished := FinishAlternative(braces[|braces| - 1], index);
        if finished.Err? {
          return Some(finished.error);
        }
        var count, start := finished.value.completed, finished.value.start;
        braces := braces[..|braces| - 1];
        var product := Bounded(Factor(braces, expansions) * count, start);
        if product.Err? {
          return Some(product.error);
        }
        if braces == [] {
          expansions := product.value;
        } else {
          braces := Absorbed(braces, product.value);
        }
        index := index + 1;
      case _ =>
        ProgressOther(pattern, index, braces, expansions);
        braces := Marked(braces);
        index := index + 1;
    }
    ProgressEnds(pattern, braces, expansions);
    if braces != [] {
      return Some(PatternError(UnclosedBrace, braces[|braces| - 1].start));
    }
    return None;
  }

  // Past the limit -----------------------------------------------------------------------------

  function Groups(n: nat): string { if n == 0 then "" else "{,}" + Groups(n - 1) }

  /** A class for validation, `n` groups of two empty alternatives for the matcher. */
  function Bypass(n: nat): string { "[]" + Groups(n) + "]" }

  function Power(n: nat): nat { if n == 0 then 1 else 2 * Power(n - 1) }

  lemma {:induction false} GroupBytes(n: nat)
    ensures |Groups(n)| == 3 * n && forall i | 0 <= i < |Groups(n)| :: Groups(n)[i] in {'{', ',', '}'}
  {
    if n > 0 { GroupBytes(n - 1); }
  }

  /** Inside the class every brace and comma is a member. */
  lemma {:induction false} BypassMembers(n: nat, i: nat)
    requires 2 <= i < |Bypass(n)|
    ensures ClassRest(Bypass(n), 0, i, true) == Ok(|Bypass(n)|)
    decreases |Bypass(n)| - i
  {
    var pattern := Bypass(n);
    GroupBytes(n);
    if i < |pattern| - 1 {
      assert pattern[i] == Groups(n)[i - 2];
      assert i + 1 < |pattern| - 1 ==> pattern[i + 1] == Groups(n)[i - 1];
      BypassMembers(n, i + 1);
    }
  }

  lemma BypassIsClass(n: nat)
    ensures ClassEnd(Bypass(n), 0) == Ok(|Bypass(n)|)
    ensures Syntax(Bypass(n), 0, []).None? && Braceless(Bypass(n), 0) && !OrdinaryClasses(Bypass(n), 0)
  {
    var pattern := Bypass(n);
    GroupBytes(n);
    assert pattern[0] == '[' && pattern[1] == ']';
    assert |pattern| > 3 ==> pattern[2] == Groups(n)[0];
    BypassMembers(n, 2);
  }

  lemma BypassGroup(n: nat)
    requires n > 0
    ensures FirstGroup(Bypass(n)) == Some((2, ["", ""], 4)) && Replaced(Bypass(n), 2, "", 4) == Bypass(n - 1)
  {
    var pattern := Bypass(n);
    assert pattern == "[]{,}" + (Groups(n - 1) + "]");
    assert FindOpen(pattern, 2, PLAIN) == Some(2);
    assert FindOpen(pattern, 1, IN_CLASS) == Some(2);
    assert pattern[3..3] == "" == pattern[4..4];
    assert FindClose(pattern, 4, PLAIN, 1, 4) == Some(([""], 4));
    assert [""] + [""] == ["", ""];
    assert FindClose(pattern, 3, PLAIN, 1, 3) == Some((["", ""], 4));
    assert pattern[..2] == "[]" && pattern[5..] == Groups(n - 1) + "]";
  }

  /** Every group doubles the leaves. */
  lemma {:induction false} BypassLeaves(n: nat)
    ensures |Leaves(Bypass(n))| == Power(n)
  {
    hide FirstGroup, Leaves, Bypass, Replaced, FindOpen, FindClose;
    if n == 0 {
      LeadingBracketLeaf();
    } else {
      BypassGroup(n);
      BypassLeaves(n - 1);
      PairLeaves(Bypass(n), 2, 4);
    }
  }

  lemma PairLeaves(pattern: string, start: nat, end: nat)
    requires FirstGroup(pattern) == Some((start, ["", ""], end))
    ensures |Leaves(pattern)| == 2 * |Leaves(Replaced(pattern, start, "", end))|
  {
    hide FirstGroup, Replaced;
    assert [""][1..] == [] && ["", ""][1..] == [""];
    assert Leaves(pattern) == LeavesOf(pattern, start, ["", ""], end);
    assert LeavesOf(pattern, start, [], end) == [];
  }

  lemma LeadingBracketLeaf()
    ensures |Leaves(Bypass(0))| == 1
  {
    var leaf := Bypass(0);
    assert leaf == "[]]";
    assert FindOpen(leaf, 2, PLAIN).None? && FindOpen(leaf, 1, IN_CLASS).None? && FindOpen(leaf, 0, PLAIN).None?;
  }

  /** Classes that start with `]` are read differently: validation accepts patterns of a few bytes a group
      that the matcher expands without any bound, although the limit is 256. */
  method LeadingBracketDiffers(n: nat) returns (pattern: string, r: Option<PatternError>)
    ensures pattern == Bypass(n) && |pattern| == 3 * n + 3 && r.None?
    ensures |Leaves(pattern)| == Power(n) && (n >= 9 ==> |Leaves(pattern)| > 256)
  {
    pattern := Bypass(n);
    GroupBytes(n);
    BypassIsClass(n);
    BypassLeaves(n);
    PowerGrows(n);
    r := Validate(pattern);
  }

  lemma {:induction false} PowerGrows(n: nat)
    ensures n >= 9 ==> Power(n) > MAX_ALTERNATIVE_EXPANSIONS
  {
    if n > 9 {
      PowerGrows(n - 1);
    } else if n == 9 {
      assert Power(3) == 8;
      assert Power(6) == 64;
    }
  }
}
