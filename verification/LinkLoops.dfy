/**
 Link loops in the ordered walk: the same directory graph as the serial walker's, read one directory at a time
 with the depth capped, as the ordered and the stateful walks do when links are followed.
 */
module LinkLoops {
  import opened Wrappers
  import opened FileTree
  import WalkGraph

  /** The graph entry as a one-directory read yields it, with the directory it leads to if the walk enters it. */
  function ReadEntry(cfg: WalkGraph.Config, path: Path, depth: nat, name: string, kind: WalkGraph.Kind,
                     active: set<WalkGraph.DirId>): Result<WalkGraph.Visited, WalkError>
  {
    var capped := cfg.(maxDepth := WorkerMaxDepth(cfg.maxDepth, depth));
    match capped.Visit(path + [name], depth + 1, kind, active)
    case Err(error) => Err(error)
    case Ok(visited) =>
      var entry := ClearDepthSkip(visited.entry, cfg.maxDepth);
      Ok(WalkGraph.Visited(entry, if Descends(Ok(entry)) then Identity(kind) else None))
  }

  function Identity(kind: WalkGraph.Kind): Option<WalkGraph.DirId> {
    match kind
    case PlainDirectory(id, _, _) => Some(id)
    case Link(ToDirectory(id, _, _)) => Some(id)
    case _ => None
  }

  /** The ordered walk enters the directories of these names one inside the other, from directory `id` on. */
  ghost predicate Enters(cfg: WalkGraph.Config, path: Path, depth: nat, id: WalkGraph.DirId,
                         active: set<WalkGraph.DirId>, names: seq<string>)
    decreases |names|
  {
    names == [] ||
    (cfg.listing(id).Some? && exists g | g in cfg.listing(id).value && g.GraphEntry? && g.name == names[0] ::
       var read := ReadEntry(cfg, path, depth, g.name, g.kind, active);
       read.Ok? && read.value.descend.Some?
       && Enters(cfg, path + [g.name], depth + 1, read.value.descend.value, active + {read.value.descend.value}, names[1..]))
  }

  /** The directory holds nothing but a followed link to itself. */
  predicate SelfLoop(cfg: WalkGraph.Config, id: WalkGraph.DirId, name: string) {
    cfg.followLinks && cfg.listing(id) == Some([WalkGraph.GraphEntry(name, LoopLink(id))])
  }

  function LoopLink(id: WalkGraph.DirId): WalkGraph.Kind { WalkGraph.Link(WalkGraph.ToDirectory(id, false, false)) }

  function Repeat(name: string, count: nat): seq<string> { seq(count, _ => name) }

  /** Only the walk's own depth limit stops the ordered walk inside a link loop. */
  lemma {:induction false} LoopEntered(
    cfg: WalkGraph.Config, path: Path, depth: nat, id: WalkGraph.DirId, active: set<WalkGraph.DirId>, name: string, count: nat)
    requires SelfLoop(cfg, id, name) && id in active
    ensures Enters(cfg, path, depth, id, active, Repeat(name, count))
      <==> count == 0 || cfg.maxDepth.None? || depth + count < cfg.maxDepth.value
    decreases count
  {
    if count > 0 {
      var names := Repeat(name, count);
      var link := WalkGraph.GraphEntry(name, LoopLink(id));
      assert names[1..] == Repeat(name, count - 1) && active + {id} == active;
      LoopEntered(cfg, path + [name], depth + 1, id, active, name, count - 1);
      assert link in cfg.listing(id).value && forall g | g in cfg.listing(id).value :: g == link;
    }
  }

  /** Without a limit the ordered walk goes round the loop without end, while the serial walker shows the link
      once, as a loop, and stops. */
  lemma LoopEndless(cfg: WalkGraph.Config, path: Path, depth: nat, id: WalkGraph.DirId, active: set<WalkGraph.DirId>, name: string)
    requires cfg.WellFormed() && cfg.Lists(id, [WalkGraph.GraphEntry(name, LoopLink(id))])
    requires SelfLoop(cfg, id, name) && id in active && cfg.maxDepth.None?
    ensures forall count: nat :: Enters(cfg, path, depth, id, active, Repeat(name, count))
    ensures cfg.WalkEntries(path, depth, id, cfg.listing(id).value, active)
         == [cfg.OnVisit(WalkEntry(path + [name], depth + 1, false, true, true, false, Some(SymlinkLoop)))]
  {
    forall count: nat ensures Enters(cfg, path, depth, id, active, Repeat(name, count)) {
      LoopEntered(cfg, path, depth, id, active, name, count);
    }
    var entries := cfg.listing(id).value;
    assert entries[1..] == [];
  }
}
