/** Coalescing watcher events into a plan: for every path its last event decides. */
module WatchEvents {
  import opened Wrappers
  import opened Ordering
  import opened Paths
  import opened SourceEvidence

  datatype EventKind = Create | Modify | Remove | RenameFrom | RenameTo | DirectoryEvent | Rescan

  /** An event; `None` is a path outside the root or with traversal components. */
  datatype WatchEvent = WatchEvent(path: Option<string>, kind: EventKind)

  /** `controls_selection`: rule files and Git's own configuration. */
  predicate ControlsSelection(ignoreFiles: set<string>, relative: string) {
    relative == ".git/config" || relative == ".git/info/exclude"
    || exists configured | configured in ignoreFiles :: Name(configured) == Name(relative)
  }

  /** The event asks for a full rescan. */
  predicate NeedsRescan(ignoreFiles: set<string>, event: WatchEvent) {
    || event.kind == Rescan
    || (event.path.Some?
        && (event.path.value == "" || event.kind == DirectoryEvent || ControlsSelection(ignoreFiles, event.path.value)))
  }

  /** The path has no say in what is selected: neither Git's configuration nor a rule file by its name. */
  ghost predicate Ordinary(ignoreFiles: set<string>, path: string) {
    && path != "" && path != ".git/config" && path != ".git/info/exclude"
    && forall configured | configured in ignoreFiles :: Name(path) != Name(configured)
  }

  /** The event marks its path as changed, or as removed. */
  ghost predicate Marks(ignoreFiles: set<string>, event: WatchEvent, path: string) {
    event.path == Some(path) && event.kind !in {DirectoryEvent, Rescan} && Ordinary(ignoreFiles, path)
  }

  predicate IsChange(kind: EventKind) { kind == Create || kind == Modify || kind == RenameTo }

  /** What the last event that marks a path says: changed, removed, or nothing. */
  ghost function LastWord(ignoreFiles: set<string>, events: seq<WatchEvent>, path: string): Option<bool> {
    if events == [] then None
    else
      var last := events[|events| - 1];
      if Marks(ignoreFiles, last, path) then Some(last.kind in {Create, Modify, RenameTo})
      else LastWord(ignoreFiles, events[..|events| - 1], path)
  }

  ghost predicate AsksRescan(ignoreFiles: set<string>, events: seq<WatchEvent>) {
    exists e | e in events ::
      e.kind == Rescan || (e.path.Some? && (e.kind == DirectoryEvent || !Ordinary(ignoreFiles, e.path.value)))
  }

  lemma AsksRescanSnoc(ignoreFiles: set<string>, events: seq<WatchEvent>, event: WatchEvent)
    ensures AsksRescan(ignoreFiles, events + [event]) <==> AsksRescan(ignoreFiles, events) || NeedsRescan(ignoreFiles, event)
    ensures forall path | event.path == Some(path) :: Marks(ignoreFiles, event, path) <==> !NeedsRescan(ignoreFiles, event)
  {
    assert forall e :: e in events + [event] <==> e in events || e == event;
  }

  lemma NoRescan(ignoreFiles: set<string>)
    ensures !AsksRescan(ignoreFiles, [])
  {
  }

  ghost function Rejected(events: seq<WatchEvent>): nat {
    if events == [] then 0
    else
      var last := events[|events| - 1];
      Rejected(events[..|events| - 1]) + (if last.kind != Rescan && last.path.None? then 1 else 0)
  }

  /** `WatcherEventAdapter::plan`. */
  method Plan(ignoreFiles: set<string>, events: seq<WatchEvent>) returns (plan: WatchPlan, rejected: nat)
    ensures forall p :: p in plan.changed <==> LastWord(ignoreFiles, events, p) == Some(true)
    ensures forall p :: p in plan.removed <==> LastWord(ignoreFiles, events, p) == Some(false)
    ensures Strictly(TextLess, plan.changed) && Strictly(TextLess, plan.removed) && NoDuplicates(plan.changed)
    ensures plan.fullRescan <==> AsksRescan(ignoreFiles, events)
    ensures rejected == Rejected(events)
  {
    hide ControlsSelection, AsksRescan, Ordinary;
    NoRescan(ignoreFiles);
    var changed: set<string> := {};
    var removed: set<string> := {};
    var fullRescan := false;
    rejected := 0;
    for i := 0 to |events|
      invariant forall p :: p in changed <==> LastWord(ignoreFiles, events[..i], p) == Some(true)
      invariant forall p :: p in removed <==> LastWord(ignoreFiles, events[..i], p) == Some(false)
      invariant fullRescan <==> AsksRescan(ignoreFiles, events[..i])
      invariant rejected == Rejected(events[..i])
    {
      var event := events[i];
      assert events[..i + 1][..i] == events[..i] && events[..i + 1] == events[..i] + [event];
      AsksRescanSnoc(ignoreFiles, events[..i], event);
      if event.kind == Rescan {
        fullRescan := true;
      } else if event.path.None? {
        rejected := rejected + 1;
      } else if NeedsRescan(ignoreFiles, event) {
        fullRescan := true;
      } else if IsChange(event.kind) {
        removed := removed - {event.path.value};
        changed := changed + {event.path.value};
      } else {
        changed := changed - {event.path.value};
        removed := removed + {event.path.value};
      }
    }
    assert events[..|events|] == events;
    var changedList := SortedList(changed);
    var removedList := SortedList(removed);
    plan := WatchPlan(changedList, removedList, fullRescan);
  }

  /** `sort_unstable` on the elements of a hash set. */
  method SortedList(items: set<string>) returns (sorted: seq<string>)
    ensures Strictly(TextLess, sorted) && NoDuplicates(sorted) && forall x :: x in sorted <==> x in items
  {
    var list: seq<string> := [];
    var rest := items;
    while rest != {}
      invariant rest <= items && NoDuplicates(list) && forall x :: x in list <==> x in items - rest
    {
      var x :| x in rest;
      rest := rest - {x};
      assert x !in list && forall k | 0 <= k < |list| :: list[k] in list;
      list := list + [x];
    }
    SortDistinct(list);
    sorted := Sort(TextLess, list);
  }

  lemma SortDistinct(list: seq<string>)
    requires NoDuplicates(list)
    ensures Strictly(TextLess, Sort(TextLess, list)) && NoDuplicates(Sort(TextLess, list))
    ensures forall x :: x in Sort(TextLess, list) <==> x in list
  {
    TextStrictTotal();
    SortStrict(TextLess, list);
  }
}
