/** Counting brace expansions in one pass: the stack count equals the number of expanded leaves. */
module BraceCount {
  import opened Wrappers
  import opened Braces

  /** The whole pattern's count at the bottom, then the open groups: finished alternatives and the current one. */
  datatype Stack = Base(current: nat) | Group(outer: Stack, completed: nat, current: nat) {
    /** A closed group multiplies the alternative it stands in. */
    function Absorb(count: nat): Stack { this.(current := Product(current, count)) }

    function Depth(): nat { if Base? then 0 else 1 + outer.Depth() }

    /** The same groups opened inside another stack. */
    function Plug(context: Stack): Stack {
      match this
      case Base(n) => context.Absorb(n)
      case Group(o, completed, n) => Group(o.Plug(context), completed, n)
    }
  }

  function Product(m: nat, n: nat): nat { m * n }

  datatype State = State(stack: Stack, mode: Mode)

  /** One byte of the count without any limit; `None` is a closing brace that closes nothing. */
  function Advance(state: State, byte: char): (next: Option<State>) {
    var State(stack, mode) := state;
    if mode.Plain() && byte == '{' then Some(State(Group(stack, 0, 1), mode))
    else if mode.Plain() && byte == '}' then
      match stack
      case Base(_) => None
      case Group(o, completed, n) => Some(State(o.Absorb(completed + n), mode))
    else if mode.Plain() && byte == ',' then
      match stack
      case Base(_) => Some(state)
      case Group(o, completed, n) => Some(State(Group(o, completed + n, 1), mode))
    else Some(State(stack, mode.After(byte)))
  }

  function Scan(state: State, text: string): Option<State> {
    if text == "" then Some(state)
    else
      var before :- Scan(state, text[..|text| - 1]);
      Advance(before, text[|text| - 1])
  }

  lemma {:induction false} ScanAppend(state: State, a: string, b: string)
    ensures Scan(state, a + b)
         == match Scan(state, a)
            case None => None
            case Some(middle) => Scan(middle, b)
  {
    if b == "" {
      assert a + b == a;
    } else {
      assert (a + b)[..|a + b| - 1] == a + b[..|b| - 1];
      ScanAppend(state, a, b[..|b| - 1]);
    }
  }

  const START := State(Base(1), PLAIN)

  /** The scan ends outside all groups, having counted `n`. */
  ghost predicate Counts(text: string, n: nat) {
    Scan(START, text) == Some(State(Base(n), PLAIN))
  }

  // Counting inside another context ------------------------------------------------------------

  /** No comma of the text separates alternatives of the group around it. */
  ghost predicate NoSeparator(text: string) {
    forall i | 0 <= i < |text| && text[i] == ',' :: !Separates(Scan(START, text[..i]))
  }

  /** A comma read here would stand outside all groups. */
  predicate Separates(state: Option<State>) {
    state.Some? && state.value.mode.Plain() && state.value.stack.Base?
  }

  lemma AbsorbDepth(stack: Stack, n: nat)
    ensures stack.Absorb(n).Depth() == stack.Depth()
  {
  }

  lemma AbsorbTwice(stack: Stack, m: nat, n: nat)
    ensures stack.Absorb(m).Absorb(n) == stack.Absorb(Product(m, n))
  {
    assert stack.current * m * n == stack.current * (m * n);
  }

  lemma PlugShape(stack: Stack, context: Stack)
    ensures stack.Base? ==> stack.Plug(context).Base? == context.Base?
    ensures match stack
            case Base(_) => true
            case Group(o, completed, n) => stack.Plug(context) == Group(o.Plug(context), completed, n)
  {
  }

  lemma PlugAbsorb(stack: Stack, context: Stack, n: nat)
    ensures stack.Absorb(n).Plug(context) == stack.Plug(context).Absorb(n)
  {
    hide Product;
    match stack
    case Base(m) => AbsorbTwice(context, m, n);
    case Group(_, _, _) =>
  }

  /** Advancing commutes with plugging, byte by byte. */
  ghost predicate Lifts(state: State, context: Stack, byte: char) {
    Advance(State(state.stack.Plug(context), state.mode), byte)
    == match Advance(state, byte)
       case None => None
       case Some(next) => Some(State(next.stack.Plug(context), next.mode))
  }

  lemma LiftBrace(state: State, context: Stack, byte: char)
    requires state.mode.Plain() && (byte == '{' || byte == '}')
    requires byte == '}' && state.stack.Base? ==> context.Base?
    ensures Lifts(state, context, byte)
  {
    hide Stack.Absorb, Stack.Plug, Mode.After;
    var stack := state.stack;
    PlugShape(stack, context);
    PlugShape(Group(stack, 0, 1), context);
    if stack.Group? { PlugAbsorb(stack.outer, context, stack.completed + stack.current); }
  }

  lemma LiftComma(state: State, context: Stack)
    requires state.mode.Plain() && (state.stack.Base? ==> context.Base?)
    ensures Lifts(state, context, ',')
  {
    hide Stack.Absorb, Stack.Plug, Mode.After;
    var stack := state.stack;
    PlugShape(stack, context);
    if stack.Group? { PlugShape(Group(stack.outer, stack.completed + stack.current, 1), context); }
  }

  lemma LiftStep(state: State, context: Stack, byte: char)
    requires context.Base? || byte != ',' || !Separates(Some(state))
    requires state.stack.Base? && context.Group? && state.mode.Plain() ==> byte != '}'
    ensures Lifts(state, context, byte)
  {
    hide Stack.Absorb, Stack.Plug, Mode.After;
    if state.mode.Plain() && (byte == '{' || byte == '}') {
      LiftBrace(state, context, byte);
    } else if state.mode.Plain() && byte == ',' {
      LiftComma(state, context);
    }
  }

  /** Counting a text inside another stack multiplies what is there by the text's own count. */
  lemma {:induction false} LiftScan(text: string, context: Stack)
    requires context.Base? || (NoSeparator(text) && Scan(START, text).Some?)
    ensures Scan(State(context, PLAIN), text)
         == match Scan(START, text)
            case None => None
            case Some(next) => Some(State(next.stack.Plug(context), next.mode))
  {
    if text == "" {
      assert context.Absorb(1) == context;
    } else {
      var init, last := text[..|text| - 1], text[|text| - 1];
      forall i | 0 <= i < |init| && init[i] == ','
        ensures context.Group? ==> !Separates(Scan(START, init[..i]))
      {
        assert init[..i] == text[..i] && text[i] == ',';
      }
      LiftScan(init, context);
      if Scan(START, init).Some? {
        LiftStep(Scan(START, init).value, context, last);
      }
    }
  }

  /** Independent texts multiply. */
  lemma CountsAppend(a: string, n: nat, b: string)
    requires Counts(a, n)
    ensures forall m: nat :: Counts(b, m) ==> Counts(a + b, n * m)
    ensures Countable(a + b) ==> Countable(b)
  {
    ScanAppend(START, a, b);
    LiftScan(b, Base(n));
    if Countable(a + b) {
      var k: nat :| Counts(a + b, k);
      assert Counts(b, Scan(START, b).value.stack.current);
    }
  }

  // One brace group ----------------------------------------------------------------------------

  ghost function Own(text: string): nat {
    if n: nat :| Counts(text, n) then n else 0
  }

  lemma OwnCount(text: string, n: nat)
    requires Counts(text, n)
    ensures Own(text) == n
  {
  }

  ghost predicate Countable(text: string) { exists n: nat :: Counts(text, n) }

  ghost function Sum(alternatives: seq<string>): nat {
    if alternatives == [] then 0 else Own(alternatives[0]) + Sum(alternatives[1..])
  }

  /** The scan stands inside the first group of a pattern, in the alternative that began at `from`. */
  ghost predicate Inside(pattern: string, from: nat, i: nat, mode: Mode, depth: nat, completed: nat) {
    && 1 <= depth && from <= i <= |pattern|
    && NoSeparator(pattern[from..i])
    && Scan(START, pattern[from..i]).Some?
    && var low := Scan(START, pattern[from..i]).value;
      && low.stack.Depth() == depth - 1 && low.mode == mode
      && Scan(START, pattern[..i]) == Some(State(low.stack.Plug(Group(Base(1), completed, 1)), mode))
  }

  lemma InsideStep(pattern: string, from: nat, i: nat, mode: Mode, depth: nat, completed: nat)
    requires Inside(pattern, from, i, mode, depth, completed) && i < |pattern|
    requires !(mode.Plain() && depth == 1 && (pattern[i] == '}' || pattern[i] == ','))
    ensures
      var plain := mode.Plain();
      var (mode', depth') :=
        if plain && pattern[i] == '{' then (mode, depth + 1)
        else if plain && pattern[i] == '}' then (mode, depth - 1)
        else (mode.After(pattern[i]), depth);
      Inside(pattern, from, i + 1, mode', depth', completed)
  {
    var here, next := pattern[from..i], pattern[from..i + 1];
    assert next[..|next| - 1] == here && next[|next| - 1] == pattern[i];
    assert pattern[..i + 1][..i] == pattern[..i] && pattern[..i + 1][i] == pattern[i];
    var low := Scan(START, here).value;
    if low.stack.Group? { AbsorbDepth(low.stack.outer, low.stack.completed + low.stack.current); }
    LiftStep(low, Group(Base(1), completed, 1), pattern[i]);
    forall j | 0 <= j < |next| && next[j] == ','
      ensures !Separates(Scan(START, next[..j]))
    {
      assert next[..j] == here[..j];
      if j == |here| { assert here[..j] == here; } else { assert here[j] == ','; }
    }
  }

  lemma InsideEnds(pattern: string, from: nat, i: nat, mode: Mode, completed: nat)
    requires Inside(pattern, from, i, mode, 1, completed) && i < |pattern| && mode.Plain()
    ensures Countable(pattern[from..i])
    ensures pattern[i] == '}' ==> Counts(pattern[..i + 1], completed + Own(pattern[from..i]))
    ensures pattern[i] == ',' ==> Inside(pattern, i + 1, i + 1, mode, 1, completed + Own(pattern[from..i]))
  {
    var low := Scan(START, pattern[from..i]).value;
    var n := low.stack.current;
    assert mode == PLAIN && low.stack == Base(n);
    assert Counts(pattern[from..i], n);
    OwnCount(pattern[from..i], n);
    assert pattern[..i + 1][..i] == pattern[..i] && pattern[..i + 1][i] == pattern[i];
    assert pattern[i + 1..i + 1] == "";
    assert Scan(START, pattern[..i]) == Some(State(Group(Base(1), completed, n), PLAIN));
    assert Group(Base(1), completed + n, 1).Absorb(1) == Group(Base(1), completed + n, 1);
  }

  lemma SumOne(text: string)
    ensures Sum([text]) == Own(text)
  {
  }

  lemma SumPreceded(first: string, rest: Option<(seq<string>, nat)>)
    ensures match Preceded(first, rest)
            case None => rest.None?
            case Some((alternatives, end)) =>
              && rest.Some? && end == rest.value.1
              && Sum(alternatives) == Own(first) + Sum(rest.value.0)
              && forall a | a in alternatives :: a == first || a in rest.value.0
  {
    if rest.Some? {
      assert ([first] + rest.value.0)[1..] == rest.value.0;
    }
  }

  lemma InsideAtEnd(pattern: string, from: nat, mode: Mode, depth: nat, completed: nat)
    requires Inside(pattern, from, |pattern|, mode, depth, completed)
    ensures !Countable(pattern)
  {
    assert pattern[..|pattern|] == pattern;
  }

  /** The group's count is the sum over its alternatives; an unclosed group leaves the scan inside it. */
  lemma {:induction false} GroupCounts(pattern: string, from: nat, i: nat, mode: Mode, depth: nat, completed: nat)
    requires 1 <= depth && from <= i <= |pattern| && Inside(pattern, from, i, mode, depth, completed)
    ensures match FindClose(pattern, i, mode, depth, from)
      case None => !Countable(pattern)
      case Some((alternatives, end)) =>
        && (forall a | a in alternatives :: Countable(a))
        && Counts(pattern[..end + 1], completed + Sum(alternatives))
    decreases |pattern| - i
  {
    hide Inside, Counts, Countable, Own, Sum, Preceded;
    if i == |pattern| {
      InsideAtEnd(pattern, from, mode, depth, completed);
    } else if mode.Plain() && depth == 1 && pattern[i] == '}' {
      InsideEnds(pattern, from, i, mode, completed);
      SumOne(pattern[from..i]);
    } else if mode.Plain() && depth == 1 && pattern[i] == ',' {
      InsideEnds(pattern, from, i, mode, completed);
      GroupCounts(pattern, i + 1, i + 1, mode, 1, completed + Own(pattern[from..i]));
      SumPreceded(pattern[from..i], FindClose(pattern, i + 1, mode, 1, i + 1));
    } else {
      InsideStep(pattern, from, i, mode, depth, completed);
      if mode.Plain() && pattern[i] == '{' {
        GroupCounts(pattern, from, i + 1, mode, depth + 1, completed);
      } else if mode.Plain() && pattern[i] == '}' {
        GroupCounts(pattern, from, i + 1, mode, depth - 1, completed);
      } else {
        GroupCounts(pattern, from, i + 1, mode.After(pattern[i]), depth, completed);
      }
    }
  }

  lemma ScanFails(pattern: string, i: nat)
    requires i <= |pattern|
    ensures Scan(START, pattern[..i]).None? ==> Scan(START, pattern).None?
  {
    ScanAppend(START, pattern[..i], pattern[i..]);
    assert pattern == pattern[..i] + pattern[i..];
  }

  /** Before the first opening brace nothing is counted. */
  lemma {:induction false} BeforeGroup(pattern: string, i: nat, mode: Mode)
    requires i <= |pattern| && Scan(START, pattern[..i]) == Some(State(Base(1), mode))
    requires Countable(pattern)
    ensures match FindOpen(pattern, i, mode)
      case None => Counts(pattern, 1)
      case Some(start) =>
        && Counts(pattern[..start], 1)
        && Inside(pattern, start + 1, start + 1, PLAIN, 1, 0)
    decreases |pattern| - i
  {
    if i == |pattern| {
      assert pattern[..i] == pattern;
    } else {
      assert pattern[..i + 1][..i] == pattern[..i] && pattern[..i + 1][i] == pattern[i];
      if mode.Plain() && pattern[i] == '{' {
        assert pattern[i + 1..i + 1] == "";
        assert mode == PLAIN;
      } else {
        ScanFails(pattern, i + 1);
        BeforeGroup(pattern, i + 1, mode.After(pattern[i]));
      }
    }
  }

  /** The number of leaves of a well-braced pattern is its stack count. */
  lemma {:induction false} LeavesCounted(pattern: string, n: nat)
    requires Counts(pattern, n)
    ensures |Leaves(pattern)| == n
    decreases |pattern|, 1, 0
  {
    assert pattern[..0] == "";
    BeforeGroup(pattern, 0, PLAIN);
    match FindOpen(pattern, 0, PLAIN)
    case None =>
    case Some(start) =>
      GroupCounts(pattern, start + 1, start + 1, PLAIN, 1, 0);
      var (alternatives, end) := FindClose(pattern, start + 1, PLAIN, 1, start + 1).value;
      var group := Sum(alternatives);
      assert pattern == pattern[..end + 1] + pattern[end + 1..];
      CountsAppend(pattern[..end + 1], group, pattern[end + 1..]);
      var m: nat :| Counts(pattern[end + 1..], m) && n == group * m;
      LeavesOfCounted(pattern, start, alternatives, end, m);
  }

  lemma {:induction false} LeavesOfCounted(pattern: string, start: nat, alternatives: seq<string>, end: nat, m: nat)
    requires start < end < |pattern| && forall a | a in alternatives :: |a| <= end - start - 1 && Countable(a)
    requires Counts(pattern[..start], 1) && Counts(pattern[end + 1..], m)
    ensures |LeavesOf(pattern, start, alternatives, end)| == Sum(alternatives) * m
    decreases |pattern|, 0, |alternatives|
  {
    hide Counts, Leaves;
    if alternatives != [] {
      var a := alternatives[0];
      assert a in alternatives;
      var n: nat :| Counts(a, n);
      OwnCount(a, n);
      CountsAppend(pattern[..start], 1, a);
      CountsAppend(pattern[..start] + a, n, pattern[end + 1..]);
      LeavesCounted(Replaced(pattern, start, a, end), n * m);
      LeavesOfCounted(pattern, start, alternatives[1..], end, m);
      assert (n + Sum(alternatives[1..])) * m == n * m + Sum(alternatives[1..]) * m;
    }
  }

  // The limit ----------------------------------------------------------------------------------

  const MAX_ALTERNATIVE_EXPANSIONS: nat := 256

  ghost predicate Positive(stack: Stack) { stack.current >= 1 && (stack.Group? ==> Positive(stack.outer)) }

  ghost predicate Exceeds(stack: Stack) {
    match stack
    case Base(n) => n > MAX_ALTERNATIVE_EXPANSIONS
    case Group(o, completed, n) => completed + n > MAX_ALTERNATIVE_EXPANSIONS || Exceeds(o)
  }

  lemma AbsorbGrows(stack: Stack, count: nat)
    requires Positive(stack) && count >= 1
    ensures Positive(stack.Absorb(count))
    ensures Exceeds(stack) || count > MAX_ALTERNATIVE_EXPANSIONS ==> Exceeds(stack.Absorb(count))
  {
    assert stack.current * count >= count && stack.current * count >= stack.current;
  }

  lemma ExceedsStep(state: State, byte: char)
    requires Positive(state.stack) && Advance(state, byte).Some?
    ensures Positive(Advance(state, byte).value.stack)
    ensures Exceeds(state.stack) ==> Exceeds(Advance(state, byte).value.stack)
  {
    if state.mode.Plain() && byte == '}' {
      AbsorbGrows(state.stack.outer, state.stack.completed + state.stack.current);
    }
  }

  /** A count over the limit never comes back under it. */
  lemma {:induction false} ExceedsScan(state: State, text: string)
    requires Positive(state.stack) && Scan(state, text).Some?
    ensures Positive(Scan(state, text).value.stack)
    ensures Exceeds(state.stack) ==> Exceeds(Scan(state, text).value.stack)
  {
    if text != "" {
      ExceedsScan(state, text[..|text| - 1]);
      ExceedsStep(Scan(state, text[..|text| - 1]).value, text[|text| - 1]);
    }
  }
}
