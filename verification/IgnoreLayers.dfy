/** Layered ignore rules: the on-demand lookup that knows ancestors, and the lookup used during a walk. */
module IgnoreLayers {
  import opened Wrappers
  import opened Paths
  import opened IgnoreRules
  import Matcher

  /** The rule files of one source, the innermost directory first. */
  datatype Chain = NoLayer | Layer(base: string, rules: RuleSet, parent: Chain)

  /** The rules of one layer as values. */
  datatype Lookup = Lookup(base: string, rules: seq<IgnoreRule>)

  ghost predicate ValidChain(chain: Chain) {
    chain.Layer? ==> chain.rules.Valid() && ValidChain(chain.parent)
  }

  ghost predicate ValidSources(sources: seq<Chain>) { forall s | s in sources :: ValidChain(s) }

  function Lookups(chain: Chain): seq<Lookup> {
    match chain
    case NoLayer => []
    case Layer(base, rules, parent) => [Lookup(base, rules.rules)] + Lookups(parent)
  }

  /** The layers of all sources in the order they are asked: the last source first. */
  function LastFirst(sources: seq<Chain>): seq<Lookup> {
    if sources == [] then [] else Lookups(sources[|sources| - 1]) + LastFirst(sources[..|sources| - 1])
  }

  /** `candidate_for_base`. */
  function CandidateForBase(path: string, base: string): Option<string> {
    if base == "" then Some(path)
    else if base + "/" <= path then Some(path[|base| + 1..])
    else None
  }

  /** The candidate is the path below the base; the empty base is above everything. */
  lemma CandidateIs(path: string, base: string)
    ensures base == "" ==> CandidateForBase(path, base) == Some(path)
    ensures base != "" ==> forall candidate | path == base + "/" + candidate :: CandidateForBase(path, base) == Some(candidate)
    ensures base != "" && CandidateForBase(path, base).Some? ==> path == base + "/" + CandidateForBase(path, base).value
  {
    if base + "/" <= path { assert path == base + "/" + path[|base| + 1..]; }
    forall candidate | path == base + "/" + candidate
      ensures base + "/" <= path && path[|base| + 1..] == candidate
    {
    }
  }

  /** What one layer says about a path. */
  ghost function LayerMatch(layer: Lookup, path: string, isDirectory: bool): Option<RuleMatch> {
    match CandidateForBase(path, layer.base)
    case None => None
    case Some(candidate) => MatchOf(layer.rules, candidate, isDirectory)
  }

  /** What one layer says about the path itself. */
  ghost function LayerDecision(layer: Lookup, path: string, isDirectory: bool): Option<RuleAction> {
    match CandidateForBase(path, layer.base)
    case None => None
    case Some(candidate) => Decision(layer.rules, candidate, isDirectory)
  }

  /** The on-demand decision from `layers` on, when an ancestor may already have been included. */
  ghost function OnDemand(layers: seq<Lookup>, path: string, isDirectory: bool, included: bool): Option<RuleAction> {
    if layers == [] then if included then Some(Include) else None
    else
      match LayerMatch(layers[0], path, isDirectory)
      case Some(Exactly(action)) => Some(action)
      case Some(Ancestor(Include)) => OnDemand(layers[1..], path, isDirectory, true)
      case Some(Ancestor(Ignore)) =>
        if included then OnDemand(layers[1..], path, isDirectory, true) else Some(Ignore)
      case None => OnDemand(layers[1..], path, isDirectory, included)
  }

  /** The walk's decision: the first layer that decides the path itself. */
  ghost function Prepared(layers: seq<Lookup>, path: string, isDirectory: bool): Option<RuleAction> {
    if layers == [] then None
    else
      match LayerDecision(layers[0], path, isDirectory)
      case Some(action) => Some(action)
      case None => Prepared(layers[1..], path, isDirectory)
  }

  /** Rule `k` of layer `i` is the last of its layer that matches the path. */
  ghost predicate MatchesIn(layers: seq<Lookup>, path: string, isDirectory: bool, i: nat, k: nat) {
    && i < |layers| && CandidateForBase(path, layers[i].base).Some?
    && LastMatch(layers[i].rules, CandidateForBase(path, layers[i].base).value, isDirectory, k)
  }

  /** Rule `k` of layer `i` decides the path: no layer in front has a matching rule. */
  ghost predicate DecidesFrom(layers: seq<Lookup>, path: string, isDirectory: bool, i: nat, k: nat) {
    MatchesIn(layers, path, isDirectory, i, k) && forall h: nat, j: nat | h < i :: !MatchesIn(layers, path, isDirectory, h, j)
  }

  lemma FirstLayer(layers: seq<Lookup>, path: string, isDirectory: bool)
    requires layers != []
    ensures forall k: nat | MatchesIn(layers, path, isDirectory, 0, k) ::
      LayerDecision(layers[0], path, isDirectory) == Some(layers[0].rules[k].action)
    ensures LayerDecision(layers[0], path, isDirectory).Some? <==> exists k: nat :: MatchesIn(layers, path, isDirectory, 0, k)
  {
    hide LastMatch, Decision;
    match CandidateForBase(path, layers[0].base)
    case None =>
    case Some(candidate) =>
      DecisionExactly(layers[0].rules, candidate, isDirectory);
      if k: nat :| LastMatch(layers[0].rules, candidate, isDirectory, k) {
        assert MatchesIn(layers, path, isDirectory, 0, k);
      }
  }

  lemma LaterLayer(layers: seq<Lookup>, path: string, isDirectory: bool, i: nat, k: nat)
    requires layers != [] && forall j: nat :: !MatchesIn(layers, path, isDirectory, 0, j)
    ensures DecidesFrom(layers[1..], path, isDirectory, i, k) <==> DecidesFrom(layers, path, isDirectory, i + 1, k)
  {
    hide LastMatch, CandidateForBase;
    forall h: nat, j: nat
      ensures MatchesIn(layers[1..], path, isDirectory, h, j) <==> MatchesIn(layers, path, isDirectory, h + 1, j)
    {
    }
    if DecidesFrom(layers[1..], path, isDirectory, i, k) {
      forall h: nat, j: nat | h < i + 1
        ensures !MatchesIn(layers, path, isDirectory, h, j)
      {
        assert h > 0 ==> !MatchesIn(layers[1..], path, isDirectory, h - 1, j);
      }
    }
    if DecidesFrom(layers, path, isDirectory, i + 1, k) {
      forall h: nat, j: nat | h < i
        ensures !MatchesIn(layers[1..], path, isDirectory, h, j)
      {
        assert !MatchesIn(layers, path, isDirectory, h + 1, j);
      }
    }
  }

  /** The walk's decision is the action of a rule: the last matching one of the first layer that has a matching one. */
  lemma {:induction false} PreparedExactly(layers: seq<Lookup>, path: string, isDirectory: bool)
    ensures forall i: nat, k: nat | DecidesFrom(layers, path, isDirectory, i, k) ::
      Prepared(layers, path, isDirectory) == Some(layers[i].rules[k].action)
    ensures Prepared(layers, path, isDirectory).Some?
      <==> exists i: nat, k: nat :: DecidesFrom(layers, path, isDirectory, i, k)
  {
    hide LayerDecision, CandidateForBase, RuleMatches;
    if layers != [] {
      var rest := layers[1..];
      FirstLayer(layers, path, isDirectory);
      if LayerDecision(layers[0], path, isDirectory).None? {
        PreparedExactly(rest, path, isDirectory);
        forall i: nat, k: nat
          ensures DecidesFrom(rest, path, isDirectory, i, k) <==> DecidesFrom(layers, path, isDirectory, i + 1, k)
        {
          LaterLayer(layers, path, isDirectory, i, k);
        }
        forall i: nat, k: nat | DecidesFrom(layers, path, isDirectory, i, k)
          ensures Prepared(layers, path, isDirectory) == Some(layers[i].rules[k].action)
        {
          assert i > 0 && DecidesFrom(rest, path, isDirectory, i - 1, k) && rest[i - 1] == layers[i];
        }
      } else {
        var k: nat :| MatchesIn(layers, path, isDirectory, 0, k);
        assert DecidesFrom(layers, path, isDirectory, 0, k);
      }
    }
  }

  /** `match_rules`. */
  method MatchRules(path: string, isDirectory: bool, sources: seq<Chain>) returns (result: Option<RuleAction>)
    requires ValidSources(sources)
    ensures result == OnDemand(LastFirst(sources), path, isDirectory, false)
  {
    hide MatchOf, OnDemand, Lookups, ValidChain;
    var ancestorIncluded := false;
    assert sources[..|sources|] == sources;
    var i := |sources|;
    while i > 0
      invariant 0 <= i <= |sources|
      invariant OnDemand(LastFirst(sources), path, isDirectory, false)
             == OnDemand(LastFirst(sources[..i]), path, isDirectory, ancestorIncluded)
    {
      i := i - 1;
      assert sources[..i + 1][..i] == sources[..i] && sources[i] in sources;
      result, ancestorIncluded := MatchSource(path, isDirectory, sources[i], ancestorIncluded, LastFirst(sources[..i]));
      if result.Some? {
        return;
      }
    }
    NothingMoreOnDemand(path, isDirectory, ancestorIncluded);
    result := if ancestorIncluded then Some(Include) else None;
  }

  lemma NothingMoreOnDemand(path: string, isDirectory: bool, included: bool)
    ensures OnDemand([], path, isDirectory, included) == if included then Some(Include) else None
  {
  }

  /** The inner loop: one source, from the innermost directory outwards. */
  method MatchSource(path: string, isDirectory: bool, source: Chain, included: bool, ghost others: seq<Lookup>)
    returns (result: Option<RuleAction>, ancestorIncluded: bool)
    requires ValidChain(source)
    ensures OnDemand(Lookups(source) + others, path, isDirectory, included)
         == if result.Some? then result else OnDemand(others, path, isDirectory, ancestorIncluded)
  {
    hide MatchOf;
    ancestorIncluded := included;
    var layer := source;
    ghost var all := Lookups(source) + others;
    while layer.Layer?
      invariant ValidChain(layer)
      invariant OnDemand(all, path, isDirectory, included)
             == OnDemand(Lookups(layer) + others, path, isDirectory, ancestorIncluded)
      decreases layer
    {
      Uncons(Lookup(layer.base, layer.rules.rules), Lookups(layer.parent), others);
      var candidate := CandidateForBase(path, layer.base);
      if candidate.Some? {
        var ruleMatch := layer.rules.MatchRule(candidate.value, isDirectory);
        match ruleMatch
        case Some(Exactly(action)) =>
          result := Some(action);
          return;
        case Some(Ancestor(Include)) => ancestorIncluded := true;
        case Some(Ancestor(Ignore)) =>
          if !ancestorIncluded {
            result := Some(Ignore);
            return;
          }
        case None =>
      }
      layer := layer.parent;
    }
    assert [] + others == others;
    result := None;
  }

  lemma Uncons(layer: Lookup, rest: seq<Lookup>, others: seq<Lookup>)
    ensures var all := ([layer] + rest) + others; all != [] && all[0] == layer && all[1..] == rest + others
  {
  }

  /** `match_prepared_rules`. */
  method MatchPreparedRules(path: string, isDirectory: bool, sources: seq<Chain>) returns (result: Option<RuleAction>)
    requires ValidSources(sources)
    ensures result == Prepared(LastFirst(sources), path, isDirectory)
  {
    hide Decision, Prepared, Lookups, ValidChain;
    assert sources[..|sources|] == sources;
    var i := |sources|;
    while i > 0
      invariant 0 <= i <= |sources|
      invariant Prepared(LastFirst(sources), path, isDirectory) == Prepared(LastFirst(sources[..i]), path, isDirectory)
    {
      i := i - 1;
      assert sources[..i + 1][..i] == sources[..i] && sources[i] in sources;
      result := MatchPreparedSource(path, isDirectory, sources[i], LastFirst(sources[..i]));
      if result.Some? {
        return;
      }
    }
    NothingMorePrepared(path, isDirectory);
    result := None;
  }

  lemma NothingMorePrepared(path: string, isDirectory: bool)
    ensures Prepared([], path, isDirectory).None?
  {
  }

  method MatchPreparedSource(path: string, isDirectory: bool, source: Chain, ghost others: seq<Lookup>)
    returns (result: Option<RuleAction>)
    requires ValidChain(source)
    ensures Prepared(Lookups(source) + others, path, isDirectory)
         == if result.Some? then result else Prepared(others, path, isDirectory)
  {
    hide Decision;
    var layer := source;
    ghost var all := Lookups(source) + others;
    while layer.Layer?
      invariant ValidChain(layer)
      invariant Prepared(all, path, isDirectory) == Prepared(Lookups(layer) + others, path, isDirectory)
      decreases layer
    {
      Uncons(Lookup(layer.base, layer.rules.rules), Lookups(layer.parent), others);
      var candidate := CandidateForBase(path, layer.base);
      if candidate.Some? {
        result := layer.rules.MatchesExact(candidate.value, isDirectory);
        if result.Some? {
          return;
        }
      }
      layer := layer.parent;
    }
    assert [] + others == others;
    result := None;
  }

  // On-demand lookup agrees with the walk -------------------------------------------------------

  predicate ProperlyAbove(ancestor: string, path: string) { ancestor != path && Above(ancestor, path) }

  /** The walk has reached the path: none of its ancestors is ignored. */
  ghost predicate Reached(layers: seq<Lookup>, path: string) {
    forall ancestor | ProperlyAbove(ancestor, path) :: Prepared(layers, ancestor, true) != Some(Ignore)
  }

  /** An ancestor that a layer can see is, within the layer, an ancestor of the path's candidate. */
  lemma CandidateAbove(ancestor: string, path: string, base: string)
    requires ProperlyAbove(ancestor, path) && CandidateForBase(ancestor, base).Some?
    ensures CandidateForBase(path, base).Some?
    ensures ProperlyAbove(CandidateForBase(ancestor, base).value, CandidateForBase(path, base).value)
  {
    if base != "" {
      AboveIsCut(ancestor, path);
      assert base + "/" <= ancestor <= ancestor + "/" <= path;
      var a, c := ancestor[|base| + 1..], path[|base| + 1..];
      assert c[..|a| + 1] == (ancestor + "/")[|base| + 1..] == a + "/";
      AboveIsCut(a, c);
    }
  }

  /** Every ancestor inside a layer is an ancestor of the path that the layer sees. */
  lemma AncestorOfCandidate(inner: string, path: string, base: string) returns (ancestor: string)
    requires CandidateForBase(path, base).Some? && ProperlyAbove(inner, CandidateForBase(path, base).value)
    ensures ProperlyAbove(ancestor, path) && CandidateForBase(ancestor, base) == Some(inner)
  {
    if base == "" {
      ancestor := inner;
    } else {
      ancestor := base + "/" + inner;
      AboveIsCut(inner, path[|base| + 1..]);
      Rebase(inner, path, base);
      AboveIsCut(ancestor, path);
    }
  }

  lemma Rebase(inner: string, path: string, base: string)
    requires base + "/" <= path && inner + "/" <= path[|base| + 1..]
    ensures base + "/" + inner + "/" <= path && (base + "/" + inner)[|base| + 1..] == inner
    ensures base + "/" <= base + "/" + inner
  {
    var c := path[|base| + 1..];
    assert path == base + "/" + c && c == inner + "/" + c[|inner| + 1..];
    assert path == base + "/" + inner + "/" + c[|inner| + 1..];
  }

  /** Where an ancestor decision comes from. */
  lemma {:induction false} DecidingAncestor(rules: seq<IgnoreRule>, path: string) returns (ancestor: string)
    requires AncestorDecision(rules, path).Some?
    ensures ProperlyAbove(ancestor, path) && Decision(rules, ancestor, true) == AncestorDecision(rules, path)
    decreases |path|
  {
    var parent := Parent(path).value;
    assert Above(parent, parent) && Above(parent, path);
    if Decision(rules, parent, true).Some? {
      ancestor := parent;
    } else {
      ancestor := DecidingAncestor(rules, parent);
      AboveShorter(ancestor, parent);
    }
  }

  lemma {:induction false} NoAncestorDecision(rules: seq<IgnoreRule>, path: string, ancestor: string)
    requires AncestorDecision(rules, path).None? && ProperlyAbove(ancestor, path)
    ensures Decision(rules, ancestor, true).None?
    decreases |path|
  {
    var parent := Parent(path).value;
    if ancestor != parent { NoAncestorDecision(rules, parent, ancestor); }
  }

  /** A layer that says nothing about a path says nothing about its ancestors. */
  lemma SilentOnAncestors(layer: Lookup, path: string, isDirectory: bool, ancestor: string)
    requires LayerMatch(layer, path, isDirectory).None? && ProperlyAbove(ancestor, path)
    ensures LayerDecision(layer, ancestor, true).None?
  {
    if CandidateForBase(ancestor, layer.base).Some? {
      CandidateAbove(ancestor, path, layer.base);
      NoAncestorDecision(layer.rules, CandidateForBase(path, layer.base).value, CandidateForBase(ancestor, layer.base).value);
    }
  }

  lemma {:induction false} PreparedSkips(silent: seq<Lookup>, rest: seq<Lookup>, path: string)
    requires forall l | l in silent :: LayerDecision(l, path, true).None?
    ensures Prepared(silent + rest, path, true) == Prepared(rest, path, true)
  {
    if silent == [] {
      assert silent + rest == rest;
    } else {
      assert (silent + rest)[1..] == silent[1..] + rest;
      PreparedSkips(silent[1..], rest, path);
    }
  }

  /** With no word from the layers before, an ignored ancestor contradicts having reached the path. */
  lemma FirstWordIsNoIgnoredAncestor(silent: seq<Lookup>, rest: seq<Lookup>, path: string, isDirectory: bool)
    requires rest != [] && Reached(silent + rest, path)
    requires forall l | l in silent :: LayerMatch(l, path, isDirectory).None?
    ensures LayerMatch(rest[0], path, isDirectory) != Some(Ancestor(Ignore))
  {
    if LayerMatch(rest[0], path, isDirectory) == Some(Ancestor(Ignore)) {
      var candidate := CandidateForBase(path, rest[0].base).value;
      var inner := DecidingAncestor(rest[0].rules, candidate);
      var ancestor := AncestorOfCandidate(inner, path, rest[0].base);
      forall l | l in silent ensures LayerDecision(l, ancestor, true).None? {
        SilentOnAncestors(l, path, isDirectory, ancestor);
      }
      PreparedSkips(silent, rest, ancestor);
      assert false;
    }
  }

  lemma ExactIsDecision(layer: Lookup, path: string, isDirectory: bool)
    ensures match LayerMatch(layer, path, isDirectory)
            case Some(Exactly(action)) => LayerDecision(layer, path, isDirectory) == Some(action)
            case _ => LayerDecision(layer, path, isDirectory).None?
  {
  }

  lemma {:induction false} IncludedFrom(layers: seq<Lookup>, path: string, isDirectory: bool)
    ensures OnDemand(layers, path, isDirectory, true)
         == match Prepared(layers, path, isDirectory)
            case Some(action) => Some(action)
            case None => Some(Include)
  {
    hide LayerMatch, LayerDecision;
    if layers != [] {
      ExactIsDecision(layers[0], path, isDirectory);
      IncludedFrom(layers[1..], path, isDirectory);
    }
  }

  /** On demand and prepared decisions: equal when prepared decides, else undecided or included. */
  predicate Agree(onDemand: Option<RuleAction>, prepared: Option<RuleAction>) {
    match prepared
    case Some(_) => onDemand == prepared
    case None => onDemand != Some(Ignore)
  }

  lemma {:induction false} AgreeFrom(silent: seq<Lookup>, rest: seq<Lookup>, path: string, isDirectory: bool)
    requires Reached(silent + rest, path)
    requires forall l | l in silent :: LayerMatch(l, path, isDirectory).None?
    ensures Agree(OnDemand(rest, path, isDirectory, false), Prepared(rest, path, isDirectory))
    decreases |rest|
  {
    hide LayerMatch, LayerDecision, Reached;
    if rest != [] {
      ExactIsDecision(rest[0], path, isDirectory);
      FirstWordIsNoIgnoredAncestor(silent, rest, path, isDirectory);
      match LayerMatch(rest[0], path, isDirectory)
      case Some(Exactly(_)) =>
      case Some(Ancestor(_)) => IncludedFrom(rest[1..], path, isDirectory);
      case None =>
        assert silent + rest == silent + [rest[0]] + rest[1..];
        AgreeFrom(silent + [rest[0]], rest[1..], path, isDirectory);
    }
  }

  /** The on-demand decision agrees with the walk on every path the walk can reach. */
  lemma OnDemandAgreesWithWalk(layers: seq<Lookup>, path: string, isDirectory: bool)
    requires Reached(layers, path)
    ensures Agree(OnDemand(layers, path, isDirectory, false), Prepared(layers, path, isDirectory))
  {
    assert [] + layers == layers;
    AgreeFrom([], layers, path, isDirectory);
  }

  /** Some directory above the path is explicitly included by the walk's own decision. */
  ghost predicate IncludedAbove(layers: seq<Lookup>, path: string) {
    exists ancestor :: ProperlyAbove(ancestor, path) && Prepared(layers, ancestor, true) == Some(Include)
  }

  /** Layers that are silent on a path include nothing above it. */
  lemma SilentIncludesNothing(silent: seq<Lookup>, path: string, isDirectory: bool)
    requires forall l | l in silent :: LayerMatch(l, path, isDirectory).None?
    ensures !IncludedAbove(silent, path)
  {
    forall ancestor | ProperlyAbove(ancestor, path) ensures Prepared(silent, ancestor, true).None? {
      forall l | l in silent ensures LayerDecision(l, ancestor, true).None? {
        SilentOnAncestors(l, path, isDirectory, ancestor);
      }
      assert silent + [] == silent;
      PreparedSkips(silent, [], ancestor);
    }
  }

  /** The first layer to speak includes an ancestor: so does the walk's own decision about it. */
  lemma FirstWordIncludes(silent: seq<Lookup>, rest: seq<Lookup>, path: string, isDirectory: bool)
    requires rest != [] && LayerMatch(rest[0], path, isDirectory) == Some(Ancestor(Include))
    requires forall l | l in silent :: LayerMatch(l, path, isDirectory).None?
    ensures IncludedAbove(silent + rest, path)
  {
    var inner := DecidingAncestor(rest[0].rules, CandidateForBase(path, rest[0].base).value);
    var ancestor := AncestorOfCandidate(inner, path, rest[0].base);
    forall l | l in silent ensures LayerDecision(l, ancestor, true).None? {
      SilentOnAncestors(l, path, isDirectory, ancestor);
    }
    PreparedSkips(silent, rest, ancestor);
  }

  lemma {:induction false} IncludedFromAbove(silent: seq<Lookup>, rest: seq<Lookup>, path: string, isDirectory: bool)
    requires Reached(silent + rest, path) && Prepared(rest, path, isDirectory).None?
    requires forall l | l in silent :: LayerMatch(l, path, isDirectory).None?
    ensures OnDemand(rest, path, isDirectory, false) == Some(Include) <==> IncludedAbove(silent + rest, path)
    decreases |rest|
  {
    hide LayerMatch, LayerDecision, Reached, IncludedAbove;
    if rest == [] {
      assert silent + rest == silent;
      SilentIncludesNothing(silent, path, isDirectory);
    } else {
      ExactIsDecision(rest[0], path, isDirectory);
      FirstWordIsNoIgnoredAncestor(silent, rest, path, isDirectory);
      match LayerMatch(rest[0], path, isDirectory)
      case Some(Exactly(_)) =>
      case Some(Ancestor(action)) =>
        assert action == Include;
        IncludedFrom(rest[1..], path, isDirectory);
        FirstWordIncludes(silent, rest, path, isDirectory);
      case None =>
        assert silent + rest == silent + [rest[0]] + rest[1..];
        IncludedFromAbove(silent + [rest[0]], rest[1..], path, isDirectory);
    }
  }

  /** Where the walk says nothing, the on-demand lookup says Include exactly below an included directory. */
  lemma IncludedBelow(layers: seq<Lookup>, path: string, isDirectory: bool)
    requires Reached(layers, path) && Prepared(layers, path, isDirectory).None?
    ensures OnDemand(layers, path, isDirectory, false) == Some(Include) <==> IncludedAbove(layers, path)
  {
    assert [] + layers == layers;
    IncludedFromAbove([], layers, path, isDirectory);
  }

  /** Layers of directories at or below a path have no say about it: the walk may decide it before
      it has loaded them. */
  lemma {:induction false} DeeperLayersSilent(deeper: seq<Lookup>, outer: seq<Lookup>, path: string, isDirectory: bool)
    requires forall l | l in deeper :: l.base != "" && !ProperlyAbove(l.base, path)
    ensures Prepared(deeper + outer, path, isDirectory) == Prepared(outer, path, isDirectory)
    ensures forall included :: OnDemand(deeper + outer, path, isDirectory, included) == OnDemand(outer, path, isDirectory, included)
  {
    if deeper == [] {
      assert deeper + outer == outer;
    } else {
      AboveIsCut(deeper[0].base, path);
      assert (deeper + outer)[1..] == deeper[1..] + outer;
      DeeperLayersSilent(deeper[1..], outer, path, isDirectory);
    }
  }

  // The typed decision -------------------------------------------------------------------------

  datatype RepositoryMatch = Undecided | Ignored | Included | OverrideIgnored | OverrideIncluded | Hidden {
    predicate IsIgnored() { Ignored? || OverrideIgnored? || Hidden? }
  }

  /** `matched_with_rules` for the decision of the layers; `hidden` already says that hidden files are skipped. */
  function Matched(override: RepositoryMatch, matched: Option<RuleAction>, hidden: bool): RepositoryMatch {
    if override != Undecided then override
    else
      match matched
      case Some(Ignore) => Ignored
      case Some(Include) => Included
      case None => if hidden then Hidden else Undecided
  }

  /** On-demand and prepared selection of a reached path differ in one case only: a hidden entry on which no
      rule has a word, below an explicitly included directory. */
  lemma SelectionAgreement(layers: seq<Lookup>, path: string, isDirectory: bool, override: RepositoryMatch, hidden: bool)
    requires Reached(layers, path)
    ensures var onDemand := OnDemand(layers, path, isDirectory, false);
      var prepared := Prepared(layers, path, isDirectory);
      (Matched(override, onDemand, hidden).IsIgnored() <==> Matched(override, prepared, hidden).IsIgnored())
      <==> !(override == Undecided && hidden && prepared.None? && IncludedAbove(layers, path))
  {
    hide OnDemand, Prepared, Reached, IncludedAbove;
    OnDemandAgreesWithWalk(layers, path, isDirectory);
    if Prepared(layers, path, isDirectory).None? { IncludedBelow(layers, path, isDirectory); }
  }

  /** Such a case: `a` is included, and the hidden file `a/.h` is kept on demand but skipped by the walk. */
  lemma SelectionDiffers()
    ensures var rule := IgnoreRule("a", Include, AnyEntry, WholePath, Matcher.New("a", false));
      var layers := [Lookup("", [rule])];
      && Reached(layers, "a/.h")
      && Matched(Undecided, OnDemand(layers, "a/.h", false, false), true) == Included
      && Matched(Undecided, Prepared(layers, "a/.h", false), true) == Hidden
  {
    var rule := IgnoreRule("a", Include, AnyEntry, WholePath, Matcher.New("a", false));
    var rules, layers := [rule], [Lookup("", [rule])];
    assert rule.matcher == Matcher.Exact(false) by {
      assert !Matcher.HasText("a", "**") && !Matcher.HasMeta("a") && '{' !in "a";
    }
    assert rules[..0] == [] && layers[1..] == [];
    forall path, isDirectory ensures Decision(rules, path, isDirectory) == if path == "a" then Some(Include) else None {
      assert RuleMatches(rule, path, isDirectory) <==> path == "a";
      assert Decision([], path, isDirectory).None?;
    }
    SplitUnique("a", ".h");
    assert "a" + "/" + ".h" == "a/.h";
    assert AncestorDecision(rules, "a/.h") == Some(Include);
    forall ancestor | ProperlyAbove(ancestor, "a/.h") ensures Prepared(layers, ancestor, true) != Some(Ignore) {
      assert LayerDecision(layers[0], ancestor, true) != Some(Ignore);
    }
  }
}
