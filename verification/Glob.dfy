/**
 Glob patterns: what their tokens mean, and the memoised matcher that decides it.
 One char stands for one byte of the pattern or value.
 */
module Glob {
  import opened Wrappers

  /** One member of a character class, a single byte when both ends agree. */
  datatype Member = Member(low: char, high: char)

  datatype Token =
    | Star
    | DoubleStar
    | AnyByte
    | Class(negated: bool, members: seq<Member>)
    | Literal(byte: char)

  predicate At(pattern: string, i: int, byte: char) { 0 <= i < |pattern| && pattern[i] == byte }

  // Reading tokens -----------------------------------------------------------------------------

  /** `escaped_member`: the byte and how much of the pattern it takes. */
  function EscapedMember(pattern: string, i: nat): (r: Option<(char, nat)>)
    ensures r.Some? ==> 1 <= r.value.1 && i + r.value.1 <= |pattern|
  {
    if i >= |pattern| then None
    else if pattern[i] != '\\' then Some((pattern[i], 1))
    else if i + 1 < |pattern| then Some((pattern[i + 1], 2))
    else None
  }

  /** A single byte or a range, and the index after it. */
  function NextMember(pattern: string, i: nat): (r: Option<(Member, nat)>)
    ensures r.Some? ==> i < r.value.1 <= |pattern|
  {
    var (start, consumed) :- EscapedMember(pattern, i);
    var j := i + consumed;
    if At(pattern, j, '-') && !At(pattern, j + 1, ']') then
      var (end, endConsumed) :- EscapedMember(pattern, j + 1);
      Some((Member(start, end), j + 1 + endConsumed))
    else
      Some((Member(start, start), j))
  }

  /** The members from `i` on and the index after the closing bracket; `None` if the class never closes. */
  function ClassMembers(pattern: string, i: nat, hasMember: bool): (r: Option<(seq<Member>, nat)>)
    ensures r.Some? ==> i < r.value.1 <= |pattern|
    decreases |pattern| - i
  {
    if i >= |pattern| then None
    else if pattern[i] == ']' && hasMember then Some(([], i + 1))
    else
      var (member, next) :- NextMember(pattern, i);
      Behind([member], ClassMembers(pattern, next, true))
  }

  /** The members read first, in front of the members still to read. */
  function Behind(seen: seq<Member>, rest: Option<(seq<Member>, nat)>): Option<(seq<Member>, nat)> {
    match rest
    case None => None
    case Some((members, end)) => Some((seen + members, end))
  }

  predicate Negated(pattern: string, i: nat) { At(pattern, i + 1, '!') || At(pattern, i + 1, '^') }

  function ClassAt(pattern: string, i: nat): (r: Option<(Token, nat)>)
    ensures r.Some? ==> r.value.0.Class? && i < r.value.1 <= |pattern|
  {
    var (members, next) :- ClassMembers(pattern, i + 1 + (if Negated(pattern, i) then 1 else 0), false);
    Some((Class(Negated(pattern, i), members), next))
  }

  function AfterStars(pattern: string, i: nat): (next: nat)
    requires i <= |pattern|
    ensures i <= next <= |pattern|
    decreases |pattern| - i
  {
    if At(pattern, i, '*') then AfterStars(pattern, i + 1) else i
  }

  /** Where matching goes on after a double star: a slash behind it belongs to it. */
  function AfterDoubleStar(pattern: string, i: nat): (next: nat)
    requires i + 2 <= |pattern|
    ensures i + 2 <= next <= |pattern|
  {
    var next := AfterStars(pattern, i + 2);
    if At(pattern, next, '/') then next + 1 else next
  }

  /** The token at `i` and the index after it. */
  function NextToken(pattern: string, i: nat): (r: (Token, nat))
    requires i < |pattern|
    ensures i < r.1 <= |pattern|
  {
    if pattern[i] == '*' && At(pattern, i + 1, '*') then (DoubleStar, AfterDoubleStar(pattern, i))
    else if pattern[i] == '*' then (Star, i + 1)
    else if pattern[i] == '?' then (AnyByte, i + 1)
    else if pattern[i] == '[' then
      match ClassAt(pattern, i)
      case Some(parsed) => parsed
      case None => (Literal('['), i + 1)
    else if pattern[i] == '\\' && i + 1 < |pattern| then (Literal(pattern[i + 1]), i + 2)
    else (Literal(pattern[i]), i + 1)
  }

  function Tokens(pattern: string, i: nat): seq<Token>
    requires i <= |pattern|
    decreases |pattern| - i
  {
    if i == |pattern| then [] else
      var (token, next) := NextToken(pattern, i);
      [token] + Tokens(pattern, next)
  }

  // The declarative meaning --------------------------------------------------------------------

  predicate Contains(members: seq<Member>, byte: char) {
    exists m | m in members :: m.low <= byte <= m.high
  }

  /** The byte is one the single-byte token stands for. */
  predicate AcceptsByte(token: Token, byte: char) {
    match token
    case AnyByte => byte != '/'
    case Literal(literal) => byte == literal
    case Class(negated, members) => byte != '/' && Contains(members, byte) != negated
    case _ => false
  }

  /** The language of one token. */
  predicate Accepts(token: Token, piece: string) {
    match token
    case Star => '/' !in piece
    case DoubleStar => true
    case _ => |piece| == 1 && AcceptsByte(token, piece[0])
  }

  function Joined(pieces: seq<string>): string {
    if pieces == [] then "" else pieces[0] + Joined(pieces[1..])
  }

  /** The value splits into one piece per token, each in its token's language. */
  ghost predicate Splits(tokens: seq<Token>, value: string, pieces: seq<string>) {
    && |pieces| == |tokens|
    && Joined(pieces) == value
    && forall t | 0 <= t < |tokens| :: Accepts(tokens[t], pieces[t])
  }

  ghost predicate Means(tokens: seq<Token>, value: string) {
    exists pieces :: Splits(tokens, value, pieces)
  }

  /** Where the first piece ends. */
  ghost predicate Cut(tokens: seq<Token>, value: string, k: nat)
    requires tokens != []
  {
    k <= |value| && Accepts(tokens[0], value[..k]) && Means(tokens[1..], value[k..])
  }

  lemma MeansNothing(value: string)
    ensures Means([], value) <==> value == ""
  {
    if value == "" { assert Splits([], value, []); }
  }

  lemma MeansCut(tokens: seq<Token>, value: string)
    requires tokens != []
    ensures Means(tokens, value) <==> exists k: nat :: Cut(tokens, value, k)
  {
    if Means(tokens, value) {
      var pieces :| Splits(tokens, value, pieces);
      var k := |pieces[0]|;
      assert value[..k] == pieces[0] && value[k..] == Joined(pieces[1..]);
      assert Splits(tokens[1..], value[k..], pieces[1..]);
      assert Cut(tokens, value, k);
    }
    if k: nat :| Cut(tokens, value, k) {
      var rest :| Splits(tokens[1..], value[k..], rest);
      var pieces := [value[..k]] + rest;
      assert pieces[1..] == rest && value == value[..k] + value[k..];
      assert Splits(tokens, value, pieces);
    }
  }

  /** How a star, a double star and a single byte consume a value from the left. */
  lemma MeansStep(tokens: seq<Token>, value: string)
    requires tokens != []
    ensures Means(tokens, value) <==>
      match tokens[0]
      case Star => Means(tokens[1..], value) || (value != "" && value[0] != '/' && Means(tokens, value[1..]))
      case DoubleStar => Means(tokens[1..], value) || (value != "" && Means(tokens, value[1..]))
      case _ => value != "" && AcceptsByte(tokens[0], value[0]) && Means(tokens[1..], value[1..])
  {
    MeansCut(tokens, value);
    if value != "" {
      MeansCut(tokens, value[1..]);
      if k: nat :| Cut(tokens, value[1..], k) {
        ShiftCut(tokens, value, k);
      }
    }
    if k: nat :| Cut(tokens, value, k) {
      if k == 0 {
        assert value[0..] == value;
      } else {
        ShiftCut(tokens, value, k - 1);
      }
    }
    if Means(tokens[1..], value) {
      assert value[0..] == value && value[..0] == "";
      assert tokens[0].Star? || tokens[0].DoubleStar? ==> Cut(tokens, value, 0);
    }
    if value != "" && Means(tokens[1..], value[1..]) && AcceptsByte(tokens[0], value[0]) {
      assert Cut(tokens, value, 1);
    }
  }

  lemma ShiftCut(tokens: seq<Token>, value: string, k: nat)
    requires tokens != [] && value != ""
    ensures tokens[0].Star? ==> Cut(tokens, value, k + 1) == (value[0] != '/' && Cut(tokens, value[1..], k))
    ensures tokens[0].DoubleStar? ==> Cut(tokens, value, k + 1) == Cut(tokens, value[1..], k)
    ensures !tokens[0].Star? && !tokens[0].DoubleStar? && Cut(tokens, value, k + 1) ==> k == 0
  {
    if k < |value| {
      assert value[..k + 1] == [value[0]] + value[1..][..k];
      assert value[k + 1..] == value[1..][k..];
    }
  }

  // The memoised matcher -----------------------------------------------------------------------

  /** The cell of a pattern index and a value index: the rest of the value matches the rest of the pattern. */
  ghost predicate Holds(pattern: string, value: string, p: nat, v: nat)
    requires p <= |pattern| && v <= |value|
  {
    Means(Tokens(pattern, p), value[v..])
  }

  function Slot(value: string, p: nat, v: nat): nat { p * (|value| + 1) + v }

  function Size(pattern: string, value: string): nat { (|pattern| + 1) * (|value| + 1) }

  lemma SlotInRange(pattern: string, value: string, p: nat, v: nat)
    requires p <= |pattern| && v <= |value|
    ensures Slot(value, p, v) < Size(pattern, value)
  {
    assert p * (|value| + 1) <= |pattern| * (|value| + 1);
  }

  lemma SlotOrder(value: string, p: nat, v: nat, p': nat, v': nat)
    requires v <= |value| && p < p'
    ensures Slot(value, p, v) < Slot(value, p', v')
  {
    assert (p + 1) * (|value| + 1) <= p' * (|value| + 1);
  }

  lemma SlotInjective(value: string, p: nat, v: nat, p': nat, v': nat)
    requires v <= |value| && v' <= |value| && Slot(value, p, v) == Slot(value, p', v')
    ensures p == p' && v == v'
  {
    if p < p' {
      SlotOrder(value, p, v, p', v');
    } else if p' < p {
      SlotOrder(value, p', v', p, v);
    }
  }

  type Memo = seq<int>

  ghost predicate CellOk(pattern: string, value: string, memo: Memo, p: nat, v: nat)
    requires p <= |pattern| && v <= |value| && |memo| == Size(pattern, value)
  {
    SlotInRange(pattern, value, p, v);
    var cell := memo[Slot(value, p, v)];
    0 <= cell <= 2 && (cell != 0 ==> (cell == 2 <==> Holds(pattern, value, p, v)))
  }

  ghost predicate MemoOk(pattern: string, value: string, memo: Memo) {
    && |memo| == Size(pattern, value)
    && forall p: nat, v: nat | p <= |pattern| && v <= |value| :: CellOk(pattern, value, memo, p, v)
  }

  ghost function Filled(memo: Memo): set<int> { set i | 0 <= i < |memo| && memo[i] != 0 }

  /** Only cells at or behind `(p, v)` were filled, `evaluated` of them, and none was filled before. */
  ghost predicate Advanced(pattern: string, value: string, before: Memo, after: Memo, p: nat, v: nat, evaluated: nat) {
    && |before| == |after| == Size(pattern, value)
    && (forall i | 0 <= i < |before| && before[i] != 0 :: after[i] == before[i])
    && (forall q: nat, w: nat | q <= |pattern| && w <= |value| && (q < p || w < v) :: Kept(pattern, value, before, after, q, w))
    && |Filled(after)| == |Filled(before)| + evaluated
  }

  ghost predicate Kept(pattern: string, value: string, before: Memo, after: Memo, q: nat, w: nat)
    requires q <= |pattern| && w <= |value| && |before| == |after| == Size(pattern, value)
  {
    SlotInRange(pattern, value, q, w);
    after[Slot(value, q, w)] == before[Slot(value, q, w)]
  }

  lemma AdvancedThen(pattern: string, value: string, a: Memo, b: Memo, c: Memo,
                     p: nat, v: nat, p1: nat, v1: nat, n1: nat, p2: nat, v2: nat, n2: nat)
    requires Advanced(pattern, value, a, b, p1, v1, n1) && Advanced(pattern, value, b, c, p2, v2, n2)
    requires p <= p1 && v <= v1 && p <= p2 && v <= v2
    ensures Advanced(pattern, value, a, c, p, v, n1 + n2)
    ensures p <= |pattern| && v <= |value| && (p < p1 || v < v1) && (p < p2 || v < v2) ==>
              Kept(pattern, value, a, c, p, v)
  {
    forall q: nat, w: nat | q <= |pattern| && w <= |value| && (q < p || w < v)
      ensures Kept(pattern, value, a, c, q, w)
    {
      assert Kept(pattern, value, a, b, q, w) && Kept(pattern, value, b, c, q, w);
    }
    if p <= |pattern| && v <= |value| && (p < p1 || v < v1) && (p < p2 || v < v2) {
      assert Kept(pattern, value, a, b, p, v) && Kept(pattern, value, b, c, p, v);
    }
  }

  lemma AdvancedNot(pattern: string, value: string, a: Memo, p: nat, v: nat)
    requires |a| == Size(pattern, value)
    ensures Advanced(pattern, value, a, a, p, v, 0)
  {
  }

  lemma Fill(pattern: string, value: string, a: Memo, b: Memo, p: nat, v: nat, n: nat, result: bool)
    requires MemoOk(pattern, value, b) && p <= |pattern| && v <= |value|
    requires Advanced(pattern, value, a, b, p, v, n) && Kept(pattern, value, a, b, p, v)
    requires Slot(value, p, v) < |a| && a[Slot(value, p, v)] == 0
    requires result == Holds(pattern, value, p, v)
    ensures var c := b[Slot(value, p, v) := if result then 2 else 1];
      MemoOk(pattern, value, c) && Advanced(pattern, value, a, c, p, v, n + 1)
  {
    hide Holds;
    var slot := Slot(value, p, v);
    var c := b[slot := if result then 2 else 1];
    assert Filled(c) == Filled(b) + {slot};
    forall q: nat, w: nat | q <= |pattern| && w <= |value|
      ensures CellOk(pattern, value, c, q, w)
      ensures q < p || w < v ==> Kept(pattern, value, a, c, q, w)
    {
      SlotInRange(pattern, value, q, w);
      assert CellOk(pattern, value, b, q, w);
      if Slot(value, q, w) == slot { SlotInjective(value, p, v, q, w); }
      if q < p || w < v { assert Kept(pattern, value, a, b, q, w); }
    }
  }

  /** What one cell asks of later cells. */
  lemma HoldsStep(pattern: string, value: string, p: nat, v: nat)
    requires p <= |pattern| && v <= |value|
    ensures p == |pattern| ==> (Holds(pattern, value, p, v) <==> v == |value|)
    ensures p < |pattern| ==>
      var (token, next) := NextToken(pattern, p);
      Holds(pattern, value, p, v) <==>
        match token
        case Star => Holds(pattern, value, next, v) || (v < |value| && value[v] != '/' && Holds(pattern, value, p, v + 1))
        case DoubleStar => Holds(pattern, value, next, v) || (v < |value| && Holds(pattern, value, p, v + 1))
        case _ => v < |value| && AcceptsByte(token, value[v]) && Holds(pattern, value, next, v + 1)
  {
    if p == |pattern| {
      MeansNothing(value[v..]);
    } else {
      var (token, next) := NextToken(pattern, p);
      var tokens := Tokens(pattern, p);
      assert tokens[1..] == Tokens(pattern, next);
      MeansStep(tokens, value[v..]);
      if v < |value| { assert value[v..][1..] == value[v + 1..]; }
    }
  }

  /** `matches_at`: every cell is evaluated at most once, and its memo entry is right. */
  method MatchesAt(pattern: string, value: string, p: nat, v: nat, memo: array<int>)
    returns (result: bool, ghost evaluated: nat)
    requires p <= |pattern| && v <= |value| && MemoOk(pattern, value, memo[..])
    modifies memo
    ensures MemoOk(pattern, value, memo[..])
    ensures result <==> Holds(pattern, value, p, v)
    ensures Advanced(pattern, value, old(memo[..]), memo[..], p, v, evaluated)
    decreases |pattern| - p + |value| - v, 1
  {
    hide Holds, MemoOk, Advanced, Kept, Filled, CellOk;
    ghost var before := memo[..];
    MemoSize(pattern, value, before);
    SlotInRange(pattern, value, p, v);
    var slot := Slot(value, p, v);
    MemoAnswers(pattern, value, before, p, v);
    if memo[slot] == 1 || memo[slot] == 2 {
      AdvancedNot(pattern, value, before, p, v);
      return memo[slot] == 2, 0;
    }
    result, evaluated := Evaluate(pattern, value, p, v, memo);
    ghost var after := memo[..];
    MemoSize(pattern, value, after);
    memo[slot] := if result then 2 else 1;
    Fill(pattern, value, before, after, p, v, evaluated, result);
    assert memo[..] == after[slot := if result then 2 else 1];
    evaluated := evaluated + 1;
  }

  lemma MemoSize(pattern: string, value: string, memo: Memo)
    requires MemoOk(pattern, value, memo)
    ensures |memo| == Size(pattern, value)
  {
  }

  lemma MemoAnswers(pattern: string, value: string, memo: Memo, p: nat, v: nat)
    requires MemoOk(pattern, value, memo) && p <= |pattern| && v <= |value|
    ensures Slot(value, p, v) < |memo| && 0 <= memo[Slot(value, p, v)] <= 2
    ensures memo[Slot(value, p, v)] != 0 ==> (memo[Slot(value, p, v)] == 2 <==> Holds(pattern, value, p, v))
  {
    SlotInRange(pattern, value, p, v);
    assert CellOk(pattern, value, memo, p, v);
  }

  /** Asks one later cell and, if that fails, another one (`||` in the source). */
  method Either(pattern: string, value: string, ghost p: nat, ghost v: nat,
                p1: nat, v1: nat, second: bool, p2: nat, v2: nat, memo: array<int>)
    returns (result: bool, ghost evaluated: nat)
    requires p <= p1 <= |pattern| && v <= v1 <= |value| && p + v < p1 + v1 && MemoOk(pattern, value, memo[..])
    requires second ==> p <= p2 <= |pattern| && v <= v2 <= |value| && p + v < p2 + v2
    modifies memo
    ensures MemoOk(pattern, value, memo[..])
    ensures result <==> Holds(pattern, value, p1, v1) || (second && Holds(pattern, value, p2, v2))
    ensures Advanced(pattern, value, old(memo[..]), memo[..], p, v, evaluated)
    ensures Kept(pattern, value, old(memo[..]), memo[..], p, v)
    decreases |pattern| - p + |value| - v, 0, 0
  {
    hide Holds, MemoOk, Advanced, Kept, Filled;
    ghost var before := memo[..];
    MemoSize(pattern, value, before);
    result, evaluated := MatchesAt(pattern, value, p1, v1, memo);
    ghost var middle := memo[..];
    MemoSize(pattern, value, middle);
    ghost var more := 0;
    if !result && second {
      result, more := MatchesAt(pattern, value, p2, v2, memo);
      MemoSize(pattern, value, memo[..]);
      AdvancedThen(pattern, value, before, middle, memo[..], p, v, p1, v1, evaluated, p2, v2, more);
    } else {
      AdvancedNot(pattern, value, middle, p1, v1);
      AdvancedThen(pattern, value, before, middle, middle, p, v, p1, v1, evaluated, p1, v1, 0);
    }
    evaluated := evaluated + more;
  }

  /** Asks no later cell unless the single byte fits. */
  method Single(pattern: string, value: string, ghost p: nat, v: nat, fits: bool, next: nat, memo: array<int>)
    returns (result: bool, ghost evaluated: nat)
    requires p < next <= |pattern| && v <= |value| && (fits ==> v < |value|) && MemoOk(pattern, value, memo[..])
    modifies memo
    ensures MemoOk(pattern, value, memo[..])
    ensures result <==> fits && Holds(pattern, value, next, v + 1)
    ensures Advanced(pattern, value, old(memo[..]), memo[..], p, v, evaluated)
    ensures Kept(pattern, value, old(memo[..]), memo[..], p, v)
    decreases |pattern| - p + |value| - v, 0, 1
  {
    hide Holds, MemoOk, Filled;
    MemoSize(pattern, value, memo[..]);
    if fits {
      result, evaluated := Either(pattern, value, p, v, next, v + 1, false, 0, 0, memo);
    } else {
      result, evaluated := false, 0;
    }
  }

  /** `double_star`. */
  method MatchDoubleStar(pattern: string, value: string, p: nat, v: nat, memo: array<int>)
    returns (result: bool, ghost evaluated: nat)
    requires p + 2 <= |pattern| && v <= |value| && pattern[p] == '*' && pattern[p + 1] == '*'
    requires MemoOk(pattern, value, memo[..])
    modifies memo
    ensures MemoOk(pattern, value, memo[..])
    ensures result <==> Holds(pattern, value, p, v)
    ensures Advanced(pattern, value, old(memo[..]), memo[..], p, v, evaluated)
    ensures Kept(pattern, value, old(memo[..]), memo[..], p, v)
    decreases |pattern| - p + |value| - v, 0, 1
  {
    hide Holds, MemoOk, Advanced, Kept;
    HoldsStep(pattern, value, p, v);
    var next := p + 2;
    while next < |pattern| && pattern[next] == '*'
      invariant p + 2 <= next <= |pattern|
      invariant AfterStars(pattern, next) == AfterStars(pattern, p + 2)
    {
      next := next + 1;
    }
    if next < |pattern| && pattern[next] == '/' {
      next := next + 1;
    }
    result, evaluated := Either(pattern, value, p, v, next, v, v < |value|, p, v + 1, memo);
  }

  /** `character_class`: `None` also when there is no candidate byte. */
  method CharacterClass(pattern: string, value: string, p: nat, v: nat) returns (r: Option<(bool, nat)>)
    requires p < |pattern| && v <= |value|
    ensures r ==
      if v == |value| || value[v] == '/' then None
      else
        match ClassAt(pattern, p)
        case None => None
        case Some((token, next)) => Some((AcceptsByte(token, value[v]), next))
  {
    if v == |value| || value[v] == '/' {
      return None;
    }
    hide ClassMembers, NextMember, Contains, Behind;
    var candidate := value[v];
    var index := p + 1;
    var negated := Negated(pattern, p);
    if negated {
      index := index + 1;
    }
    ghost var first := index;
    var matched, hasMember := false, false;
    ghost var seen: seq<Member> := [];
    NoMembers(ClassMembers(pattern, first, false), candidate);
    while index < |pattern|
      invariant p < index
      invariant matched == Contains(seen, candidate)
      invariant ClassMembers(pattern, first, false) == Behind(seen, ClassMembers(pattern, index, hasMember))
      decreases |pattern| - index
    {
      MemberStep(pattern, index, hasMember, seen);
      if pattern[index] == ']' && hasMember {
        return Some((matched != negated, index + 1));
      }
      var parsed := NextMember(pattern, index);
      if parsed.None? {
        return None;
      }
      var (member, next) := parsed.value;
      ContainsAppend(seen, member, candidate);
      matched := matched || member.low <= candidate <= member.high;
      seen := seen + [member];
      hasMember := true;
      index := next;
    }
    MemberStep(pattern, index, hasMember, seen);
    return None;
  }

  lemma NoMembers(rest: Option<(seq<Member>, nat)>, byte: char)
    ensures Behind([], rest) == rest && !Contains([], byte)
  {
    if rest.Some? { assert [] + rest.value.0 == rest.value.0; }
  }

  lemma MemberStep(pattern: string, i: nat, hasMember: bool, seen: seq<Member>)
    ensures Behind(seen, ClassMembers(pattern, i, hasMember))
         == if i >= |pattern| then None
            else if pattern[i] == ']' && hasMember then Some((seen, i + 1))
            else
              match NextMember(pattern, i)
              case None => None
              case Some((member, next)) => Behind(seen + [member], ClassMembers(pattern, next, true))
    ensures NextMember(pattern, i).Some? ==> i < NextMember(pattern, i).value.1 <= |pattern|
  {
    assert seen + [] == seen;
    if NextMember(pattern, i).Some? {
      var (member, next) := NextMember(pattern, i).value;
      match ClassMembers(pattern, next, true)
      case None =>
      case Some((members, end)) => assert seen + ([member] + members) == seen + [member] + members;
    }
  }

  lemma ContainsAppend(members: seq<Member>, member: Member, byte: char)
    ensures Contains(members + [member], byte) <==> Contains(members, byte) || member.low <= byte <= member.high
  {
    if Contains(members, byte) {
      var m :| m in members && m.low <= byte <= m.high;
      assert m in members + [member];
    }
    if member.low <= byte <= member.high {
      assert member in members + [member];
    }
  }

  /** The body of `matches_at` behind the memo lookup: it asks later cells only. */
  method Evaluate(pattern: string, value: string, p: nat, v: nat, memo: array<int>)
    returns (result: bool, ghost evaluated: nat)
    requires p <= |pattern| && v <= |value| && MemoOk(pattern, value, memo[..])
    modifies memo
    ensures MemoOk(pattern, value, memo[..])
    ensures result <==> Holds(pattern, value, p, v)
    ensures Advanced(pattern, value, old(memo[..]), memo[..], p, v, evaluated)
    ensures Kept(pattern, value, old(memo[..]), memo[..], p, v)
    decreases |pattern| - p + |value| - v, 0, 2
  {
    hide Holds, MemoOk, Advanced, Kept, ClassAt, AfterDoubleStar;
    HoldsStep(pattern, value, p, v);
    if p == |pattern| {
      MemoSize(pattern, value, memo[..]);
      AdvancedNot(pattern, value, memo[..], p, v);
      KeptSelf(pattern, value, memo[..], p, v);
      return v == |value|, 0;
    }
    var byte := pattern[p];
    if byte == '*' && At(pattern, p + 1, '*') {
      result, evaluated := MatchDoubleStar(pattern, value, p, v, memo);
    } else if byte == '*' {
      result, evaluated :=
        Either(pattern, value, p, v, p + 1, v, v < |value| && value[v] != '/', p, v + 1, memo);
    } else if byte == '?' {
      result, evaluated := Single(pattern, value, p, v, v < |value| && value[v] != '/', p + 1, memo);
    } else if byte == '[' {
      var parsed := CharacterClass(pattern, value, p, v);
      match parsed
      case Some((classMatches, next)) =>
        result, evaluated := Single(pattern, value, p, v, classMatches, next, memo);
      case None =>
        result, evaluated := Single(pattern, value, p, v, At(value, v, '['), p + 1, memo);
    } else if byte == '\\' && p + 1 < |pattern| {
      result, evaluated := Single(pattern, value, p, v, At(value, v, pattern[p + 1]), p + 2, memo);
    } else {
      result, evaluated := Single(pattern, value, p, v, At(value, v, byte), p + 1, memo);
    }
  }

  lemma KeptSelf(pattern: string, value: string, memo: Memo, p: nat, v: nat)
    requires p <= |pattern| && v <= |value| && |memo| == Size(pattern, value)
    ensures Kept(pattern, value, memo, memo, p, v)
  {
  }

  /** The brace-free part of `matches`: a fresh memo, and no more evaluations than it has cells. */
  method MatchesLeaf(pattern: string, value: string) returns (result: bool, ghost evaluated: nat)
    ensures result <==> Means(Tokens(pattern, 0), value)
    ensures evaluated <= (|pattern| + 1) * (|value| + 1)
  {
    var memo := new int[Size(pattern, value)](_ => 0);
    assert Filled(memo[..]) == {};
    assert MemoOk(pattern, value, memo[..]);
    result, evaluated := MatchesAt(pattern, value, 0, 0, memo);
    assert value[0..] == value;
    FilledBound(memo[..]);
  }

  lemma {:induction false} FilledBound(memo: Memo)
    ensures |Filled(memo)| <= |memo|
  {
    if memo != [] {
      var last := |memo| - 1;
      FilledBound(memo[..last]);
      assert Filled(memo) == Filled(memo[..last]) + (if memo[last] != 0 then {last} else {});
    }
  }
}
