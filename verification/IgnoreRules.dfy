/** A rule list with a byte-bucket index in front of the last-match-wins scan. */
module IgnoreRules {
  import opened Wrappers
  import opened Paths
  import Matcher

  datatype RuleAction = Ignore | Include

  datatype RuleTarget = AnyEntry | DirectoryOnly

  datatype RuleScope = Anywhere | WholePath | Anchored

  datatype IgnoreRule = IgnoreRule(
    pattern: string, action: RuleAction, target: RuleTarget, scope: RuleScope, matcher: Matcher.RuleMatcher)

  /** `IgnoreRule::matches_exact`. */
  ghost predicate RuleMatches(rule: IgnoreRule, path: string, isDirectory: bool) {
    && (rule.target == DirectoryOnly ==> isDirectory)
    && Matcher.Matches(rule.matcher, rule.pattern, Subject(rule, path))
  }

  /** What the rule's pattern is held against. */
  function Subject(rule: IgnoreRule, path: string): string {
    if rule.scope == Anywhere then Name(path) else path
  }

  method RunRule(rule: IgnoreRule, path: string, isDirectory: bool) returns (result: bool)
    ensures result <==> RuleMatches(rule, path, isDirectory)
  {
    if rule.target == DirectoryOnly && !isDirectory {
      return false;
    }
    result := Matcher.RunMatcher(rule.matcher, rule.pattern, Subject(rule, path));
  }

  /** The linear scan: the last matching rule decides. */
  ghost function Decision(rules: seq<IgnoreRule>, path: string, isDirectory: bool): Option<RuleAction> {
    if rules == [] then None
    else
      var last := |rules| - 1;
      if RuleMatches(rules[last], path, isDirectory) then Some(rules[last].action)
      else Decision(rules[..last], path, isDirectory)
  }

  /** Rule `k` matches the path and no rule behind it does. */
  ghost predicate LastMatch(rules: seq<IgnoreRule>, path: string, isDirectory: bool, k: nat) {
    && k < |rules| && RuleMatches(rules[k], path, isDirectory)
    && forall j | k < j < |rules| :: !RuleMatches(rules[j], path, isDirectory)
  }

  /** The decision is the action of the last matching rule; there is none exactly if no rule matches. */
  lemma {:induction false} DecisionExactly(rules: seq<IgnoreRule>, path: string, isDirectory: bool)
    ensures forall k: nat | LastMatch(rules, path, isDirectory, k) :: Decision(rules, path, isDirectory) == Some(rules[k].action)
    ensures Decision(rules, path, isDirectory).Some? <==> exists k: nat :: LastMatch(rules, path, isDirectory, k)
  {
    hide RuleMatches;
    if rules != [] {
      var last := |rules| - 1;
      if RuleMatches(rules[last], path, isDirectory) {
        assert LastMatch(rules, path, isDirectory, last);
      } else {
        DecisionExactly(rules[..last], path, isDirectory);
        forall k: nat
          ensures LastMatch(rules, path, isDirectory, k) <==> LastMatch(rules[..last], path, isDirectory, k)
        {
          LastMatchInit(rules, path, isDirectory, k);
        }
      }
    }
  }

  lemma LastMatchInit(rules: seq<IgnoreRule>, path: string, isDirectory: bool, k: nat)
    requires rules != [] && !RuleMatches(rules[|rules| - 1], path, isDirectory)
    ensures LastMatch(rules, path, isDirectory, k) <==> LastMatch(rules[..|rules| - 1], path, isDirectory, k)
  {
    hide RuleMatches;
    var init := rules[..|rules| - 1];
    if LastMatch(init, path, isDirectory, k) {
      assert forall j | k < j < |init| :: !RuleMatches(init[j], path, isDirectory);
    }
  }

  datatype RuleMatch = Exactly(action: RuleAction) | Ancestor(action: RuleAction)

  /** The nearest ancestor directory of the path that some rule decides. */
  ghost function AncestorDecision(rules: seq<IgnoreRule>, path: string): Option<RuleAction>
    decreases |path|
  {
    match Parent(path)
    case None => None
    case Some(parent) =>
      if Decision(rules, parent, true).Some? then Decision(rules, parent, true) else AncestorDecision(rules, parent)
  }

  /** The rule list on a path and, where it says nothing, on the path's ancestors. */
  ghost function MatchOf(rules: seq<IgnoreRule>, path: string, isDirectory: bool): Option<RuleMatch> {
    match Decision(rules, path, isDirectory)
    case Some(action) => Some(Exactly(action))
    case None =>
      match AncestorDecision(rules, path)
      case Some(action) => Some(Ancestor(action))
      case None => None
  }

  // The index ----------------------------------------------------------------------------------

  /** The bucket a rule is kept in. */
  datatype Place = ExactAnywhere(key: char) | PrefixAt(key: char) | SuffixAt(key: char) | Generic

  function FirstByte(text: string): Option<char> { if text == "" then None else Some(text[0]) }

  function LastByte(text: string): Option<char> { if text == "" then None else Some(text[|text| - 1]) }

  /** `RuleMatcher::prefix_key`. */
  function PrefixKey(matcher: Matcher.RuleMatcher, pattern: string): Option<char> {
    match matcher
    case Prefix(prefix, false) => FirstByte(prefix)
    case Filtered(_, Some(head), _, false) => FirstByte(head)
    case Exact(false) => FirstByte(pattern)
    case _ => None
  }

  /** `RuleMatcher::suffix_key`. */
  function SuffixKey(matcher: Matcher.RuleMatcher, pattern: string): Option<char> {
    match matcher
    case Suffix(suffix, false) => LastByte(suffix)
    case Exact(false) => LastByte(pattern)
    case _ => None
  }

  predicate ByName(rule: IgnoreRule) {
    rule.scope == Anywhere && rule.matcher == Matcher.Exact(false) && rule.pattern != ""
  }

  function PlaceOf(rule: IgnoreRule): Place {
    if ByName(rule) then
      ExactAnywhere(rule.pattern[0])
    else
      match (PrefixKey(rule.matcher, rule.pattern), SuffixKey(rule.matcher, rule.pattern))
      case (Some(key), _) => PrefixAt(key)
      case (None, Some(key)) => SuffixAt(key)
      case (None, None) => Generic
  }

  lemma PlaceCases(rule: IgnoreRule)
    ensures ByName(rule) ==> PlaceOf(rule) == ExactAnywhere(rule.pattern[0])
    ensures !ByName(rule) ==>
      var prefix, suffix := PrefixKey(rule.matcher, rule.pattern), SuffixKey(rule.matcher, rule.pattern);
      && (prefix.Some? ==> PlaceOf(rule) == PrefixAt(prefix.value))
      && (prefix.None? && suffix.Some? ==> PlaceOf(rule) == SuffixAt(suffix.value))
      && (prefix.None? && suffix.None? ==> PlaceOf(rule) == Generic)
  {
  }

  /** The indices of the rules kept in a bucket, in ascending order. */
  function IndicesAt(rules: seq<IgnoreRule>, place: Place): seq<nat> {
    if rules == [] then []
    else
      var last := |rules| - 1;
      IndicesAt(rules[..last], place) + (if PlaceOf(rules[last]) == place then [last] else [])
  }

  ghost predicate Ascending(indices: seq<nat>) {
    forall i, j | 0 <= i < j < |indices| :: indices[i] < indices[j]
  }

  lemma {:induction false} IndicesAtAre(rules: seq<IgnoreRule>, place: Place)
    ensures Ascending(IndicesAt(rules, place))
    ensures forall k :: k in IndicesAt(rules, place) <==> 0 <= k < |rules| && PlaceOf(rules[k]) == place
    ensures forall j | 0 <= j < |IndicesAt(rules, place)| ::
              IndicesAt(rules, place)[j] < |rules| && PlaceOf(rules[IndicesAt(rules, place)[j]]) == place
  {
    if rules != [] {
      var last := |rules| - 1;
      IndicesAtAre(rules[..last], place);
      assert forall k | 0 <= k < last :: rules[..last][k] == rules[k];
      assert forall i | 0 <= i < |IndicesAt(rules[..last], place)| ::
          IndicesAt(rules[..last], place)[i] in IndicesAt(rules[..last], place);
    }
  }

  lemma IndicesAtPush(rules: seq<IgnoreRule>, rule: IgnoreRule)
    ensures forall place :: IndicesAt(rules + [rule], place)
              == if PlaceOf(rule) == place then IndicesAt(rules, place) + [|rules|] else IndicesAt(rules, place)
  {
    assert (rules + [rule])[..|rules|] == rules;
  }

  /** The best index among the rules kept in some buckets. */
  ghost predicate IsBest(rules: seq<IgnoreRule>, path: string, isDirectory: bool, places: set<Place>, best: Option<nat>) {
    && (best.Some? ==>
          best.value < |rules| && PlaceOf(rules[best.value]) in places && RuleMatches(rules[best.value], path, isDirectory))
    && forall k | 0 <= k < |rules| && PlaceOf(rules[k]) in places && RuleMatches(rules[k], path, isDirectory) ::
         best.Some? && k <= best.value
  }

  /** The buckets a path can find its rules in. */
  function Looked(path: string): set<Place> {
    var name := Name(path);
    {Generic}
    + (if name == "" then {} else {ExactAnywhere(name[0]), PrefixAt(name[0])})
    + (if path == "" then {} else {PrefixAt(path[0]), SuffixAt(path[|path| - 1])})
  }

  lemma NameEndsPath(path: string)
    ensures Name(path) != "" ==> path != "" && Name(path)[|Name(path)| - 1] == path[|path| - 1]
  {
  }

  /** A rule with a key matches only subjects that begin or end with it. */
  lemma KeysKept(matcher: Matcher.RuleMatcher, pattern: string, subject: string)
    requires Matcher.Matches(matcher, pattern, subject)
    ensures PrefixKey(matcher, pattern).Some? ==> FirstByte(subject) == PrefixKey(matcher, pattern)
    ensures SuffixKey(matcher, pattern).Some? ==> LastByte(subject) == SuffixKey(matcher, pattern)
  {
    match matcher
    case Filtered(_, Some(head), _, false) => assert head <= subject;
    case Suffix(suffix, false) =>
      if suffix != "" {
        assert subject[|subject| - |suffix|..][|suffix| - 1] == subject[|subject| - 1];
      }
    case _ =>
  }

  /** No rule outside these buckets matches. */
  lemma RuleIsLookedUp(rule: IgnoreRule, path: string, isDirectory: bool)
    requires RuleMatches(rule, path, isDirectory)
    ensures PlaceOf(rule) in Looked(path)
  {
    hide PrefixKey, SuffixKey, PlaceOf;
    NameEndsPath(path);
    PlaceCases(rule);
    KeysKept(rule.matcher, rule.pattern, Subject(rule, path));
  }

  lemma {:induction false} BestDecides(rules: seq<IgnoreRule>, path: string, isDirectory: bool, best: Option<nat>)
    requires IsBest(rules, path, isDirectory, Looked(path), best)
    ensures Decision(rules, path, isDirectory) == if best.Some? then Some(rules[best.value].action) else None
  {
    if rules != [] {
      var last := |rules| - 1;
      if RuleMatches(rules[last], path, isDirectory) {
        RuleIsLookedUp(rules[last], path, isDirectory);
      } else {
        var rest := rules[..last];
        assert forall k | 0 <= k < last :: rest[k] == rules[k];
        BestDecides(rest, path, isDirectory, best);
      }
    }
  }

  type Buckets = map<char, seq<nat>>

  function BucketRef(buckets: Buckets, key: char): seq<nat> {
    if key in buckets then buckets[key] else []
  }

  datatype RuleSet = RuleSet(
    rules: seq<IgnoreRule>, exactAnywhere: Buckets, prefixes: Buckets, suffixes: Buckets, generic: seq<nat>)
  {
    /** Every bucket holds exactly the indices of its rules. */
    ghost predicate Valid() {
      && (forall key :: BucketRef(exactAnywhere, key) == IndicesAt(rules, ExactAnywhere(key)))
      && (forall key :: BucketRef(prefixes, key) == IndicesAt(rules, PrefixAt(key)))
      && (forall key :: BucketRef(suffixes, key) == IndicesAt(rules, SuffixAt(key)))
      && generic == IndicesAt(rules, Generic)
    }

    /** `best_match`: stops at the first index that is not better. */
    method BestMatch(indices: seq<nat>, path: string, isDirectory: bool, start: Option<nat>,
                     ghost place: Place, ghost places: set<Place>)
      returns (best: Option<nat>)
      requires indices == IndicesAt(rules, place) && IsBest(rules, path, isDirectory, places, start)
      ensures IsBest(rules, path, isDirectory, places + {place}, best)
    {
      hide IndicesAt, RuleMatches, PlaceOf;
      IndicesAtAre(rules, place);
      best := start;
      var i := |indices|;
      while i > 0
        invariant 0 <= i <= |indices| && best == start
        invariant forall j | i <= j < |indices| :: !RuleMatches(rules[indices[j]], path, isDirectory)
      {
        i := i - 1;
        var index := indices[i];
        assert index in indices;
        if best.Some? && index <= best.value {
          break;
        }
        var matched := RunRule(rules[index], path, isDirectory);
        if matched {
          best := Some(index);
          break;
        }
      }
      forall k | 0 <= k < |rules| && PlaceOf(rules[k]) == place && RuleMatches(rules[k], path, isDirectory)
        ensures best.Some? && k <= best.value
      {
        var j :| 0 <= j < |indices| && indices[j] == k;
      }
    }

    /** `RuleSet::matches_exact`: a few buckets decide as the whole list does. */
    method MatchesExact(path: string, isDirectory: bool) returns (action: Option<RuleAction>)
      requires Valid()
      ensures action == Decision(rules, path, isDirectory)
    {
      hide RuleMatches, IndicesAt, Decision, IsBest;
      var best: Option<nat> := None;
      NoneIsBest(rules, path, isDirectory);
      var name := Name(path);
      ghost var looked: set<Place> := {};
      if name != "" {
        best := BestMatch(BucketRef(exactAnywhere, name[0]), path, isDirectory, best, ExactAnywhere(name[0]), looked);
        looked := looked + {ExactAnywhere(name[0])};
      }
      best := BestMatch(generic, path, isDirectory, best, Generic, looked);
      looked := looked + {Generic};
      if name != "" {
        best := BestMatch(BucketRef(prefixes, name[0]), path, isDirectory, best, PrefixAt(name[0]), looked);
        looked := looked + {PrefixAt(name[0])};
      }
      if path != "" && (name == "" || path[0] != name[0]) {
        best := BestMatch(BucketRef(prefixes, path[0]), path, isDirectory, best, PrefixAt(path[0]), looked);
        looked := looked + {PrefixAt(path[0])};
      }
      if path != "" {
        var key := path[|path| - 1];
        best := BestMatch(BucketRef(suffixes, key), path, isDirectory, best, SuffixAt(key), looked);
        looked := looked + {SuffixAt(key)};
      }
      assert looked == Looked(path);
      BestInRange(rules, path, isDirectory, looked, best);
      BestDecides(rules, path, isDirectory, best);
      action := if best.Some? then Some(rules[best.value].action) else None;
    }

    /** `RuleSet::matches`: climbs to the nearest ancestor with a decision. */
    method MatchRule(path: string, isDirectory: bool) returns (result: Option<RuleMatch>)
      requires Valid()
      ensures result == MatchOf(rules, path, isDirectory)
    {
      hide Decision, Valid;
      var action := MatchesExact(path, isDirectory);
      if action.Some? {
        return Some(Exactly(action.value));
      }
      var ancestor := path;
      while Parent(ancestor).Some?
        invariant AncestorDecision(rules, path) == AncestorDecision(rules, ancestor)
        decreases |ancestor|
      {
        var parent := Parent(ancestor).value;
        action := MatchesExact(parent, true);
        if action.Some? {
          return Some(Ancestor(action.value));
        }
        ancestor := parent;
      }
      return None;
    }
  }

  lemma PushedByName(before: RuleSet, rule: IgnoreRule, key: char, pushed: RuleSet)
    requires before.Valid() && PlaceOf(rule) == ExactAnywhere(key)
    requires pushed == before.(rules := before.rules + [rule],
      exactAnywhere := before.exactAnywhere[key := BucketRef(before.exactAnywhere, key) + [|before.rules|]])
    ensures pushed.Valid()
  {
    hide IndicesAt, PlaceOf;
    IndicesAtPush(before.rules, rule);
  }

  lemma PushedByPrefix(before: RuleSet, rule: IgnoreRule, key: char, pushed: RuleSet)
    requires before.Valid() && PlaceOf(rule) == PrefixAt(key)
    requires pushed == before.(rules := before.rules + [rule],
      prefixes := before.prefixes[key := BucketRef(before.prefixes, key) + [|before.rules|]])
    ensures pushed.Valid()
  {
    hide IndicesAt, PlaceOf;
    IndicesAtPush(before.rules, rule);
  }

  lemma PushedBySuffix(before: RuleSet, rule: IgnoreRule, key: char, pushed: RuleSet)
    requires before.Valid() && PlaceOf(rule) == SuffixAt(key)
    requires pushed == before.(rules := before.rules + [rule],
      suffixes := before.suffixes[key := BucketRef(before.suffixes, key) + [|before.rules|]])
    ensures pushed.Valid()
  {
    hide IndicesAt, PlaceOf;
    IndicesAtPush(before.rules, rule);
  }

  lemma PushedGeneric(before: RuleSet, rule: IgnoreRule, pushed: RuleSet)
    requires before.Valid() && PlaceOf(rule) == Generic
    requires pushed == before.(rules := before.rules + [rule], generic := before.generic + [|before.rules|])
    ensures pushed.Valid()
  {
    hide IndicesAt, PlaceOf;
    IndicesAtPush(before.rules, rule);
  }

  /** The rule list while its file is read. */
  class RuleList {
    var rules: RuleSet

    constructor ()
      ensures rules.Valid() && rules.rules == [] && fresh(this)
    {
      rules := RuleSet([], map[], map[], map[], []);
    }

    /** `RuleSet::push`. */
    method Push(rule: IgnoreRule)
      requires rules.Valid()
      modifies this
      ensures rules.Valid() && rules.rules == old(rules.rules) + [rule]
    {
      hide RuleSet.Valid, PrefixKey, SuffixKey, BucketRef, PlaceOf;
      PlaceCases(rule);
      var before, index := rules, |rules.rules|;
      if ByName(rule) {
        var key := rule.pattern[0];
        rules := rules.(exactAnywhere := rules.exactAnywhere[key := BucketRef(rules.exactAnywhere, key) + [index]]);
        PushedByName(before, rule, key, rules.(rules := before.rules + [rule]));
      } else if PrefixKey(rule.matcher, rule.pattern).Some? {
        var key := PrefixKey(rule.matcher, rule.pattern).value;
        rules := rules.(prefixes := rules.prefixes[key := BucketRef(rules.prefixes, key) + [index]]);
        PushedByPrefix(before, rule, key, rules.(rules := before.rules + [rule]));
      } else if SuffixKey(rule.matcher, rule.pattern).Some? {
        var key := SuffixKey(rule.matcher, rule.pattern).value;
        rules := rules.(suffixes := rules.suffixes[key := BucketRef(rules.suffixes, key) + [index]]);
        PushedBySuffix(before, rule, key, rules.(rules := before.rules + [rule]));
      } else {
        rules := rules.(generic := rules.generic + [index]);
        PushedGeneric(before, rule, rules.(rules := before.rules + [rule]));
      }
      rules := rules.(rules := rules.rules + [rule]);
    }
  }

  lemma NoneIsBest(rules: seq<IgnoreRule>, path: string, isDirectory: bool)
    ensures IsBest(rules, path, isDirectory, {}, None)
  {
  }

  lemma BestInRange(rules: seq<IgnoreRule>, path: string, isDirectory: bool, places: set<Place>, best: Option<nat>)
    requires IsBest(rules, path, isDirectory, places, best)
    ensures best.Some? ==> best.value < |rules|
  {
  }
}
