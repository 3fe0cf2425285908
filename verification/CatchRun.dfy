/** Catch's RunContext and TrackerContext. Trackers are values: the trackers from the root down to the
    current one form a spine, and a tracker that is left is written back into its parent's children.
    Exceptions thrown by the test body are scheduled by time. */
module CatchRun {
  import opened CatchTracker
  import opened CatchOnce
  import opened CatchLeaves

  /** The current tracker on top, its parent below, the root at the bottom. */
  datatype Spine = Nil | On(top: Tracker, below: Spine)

  function Depth(s: Spine): nat {
    match s
    case Nil => 0
    case On(_, below) => 1 + Depth(below)
  }

  /** openChild: marks this tracker and, up to the first one marked already, its ancestors. */
  function OpenChild(s: Spine): Spine {
    match s
    case Nil => Nil
    case On(t, below) =>
      if t.state == ExecutingChildren then s
      else On(t.(state := ExecutingChildren), OpenChild(below))
  }

  /** findChild: the first child of that name and location, or the number of children. */
  function FindChild(ts: seq<Tracker>, id: NameAndLocation): (i: nat)
    ensures i <= |ts|
    ensures i < |ts| ==> ts[i].id == id
    ensures forall j :: 0 <= j < i ==> ts[j].id != id
  {
    if ts == [] || ts[0].id == id then 0 else 1 + FindChild(ts[1..], id)
  }

  /** t with its child of that identity replaced. */
  function WriteBack(t: Tracker, child: Tracker): Tracker {
    var i := FindChild(t.children, child.id);
    if i < |t.children| then t.(children := t.children[i := child]) else t
  }

  /** close() on the top tracker: it leaves the spine for its parent's children. */
  function CloseTop(s: Spine): Spine
    requires s.On? && s.below.On?
  {
    On(WriteBack(s.below.top, Closed(s.top)), s.below.below)
  }

  /** The spine after a section's block: its tracker has failed if the exception started in it, else it is closed. */
  function Resumed(rest: Spine, r: Outcome): Spine
    requires rest.On?
  {
    if ThrewHere(r) then
      On(WriteBack(rest.top, r.t.(state := Failed)).(state := NeedsAnotherRun), rest.below)
    else CloseTop(On(r.t, rest))
  }

  /** The trackers from the top down to this depth are open. */
  ghost predicate OpenDownTo(s: Spine, depth: nat) {
    depth > 1 && Depth(s) >= depth && IsOpen(s.top) && (Depth(s) > depth ==> OpenDownTo(s.below, depth))
  }

  /** Closing the top tracker leaves those below it as open as they were. */
  lemma CloseTopOpen(s: Spine, depth: nat)
    requires OpenDownTo(s, depth) && Depth(s) > depth
    ensures s.below.On? && OpenDownTo(CloseTop(s), depth) && Depth(CloseTop(s)) < Depth(s)
  {
    assert OpenDownTo(s.below, depth);
    assert Depth(CloseTop(s)) == Depth(s.below);
    assert CloseTop(s).top.state == s.below.top.state;
  }

  ghost function CloseDownTo(s: Spine, depth: nat): Spine
    requires OpenDownTo(s, depth)
    decreases Depth(s)
  {
    assert Depth(s) == 1 + Depth(s.below);
    if Depth(s) == depth then CloseTop(s)
    else
      CloseTopOpen(s, depth);
      CloseDownTo(CloseTop(s), depth)
  }

  /** All trackers of a spine are waiting for a child that is running. */
  ghost predicate Waiting(s: Spine) {
    s.On? ==> s.top.state == ExecutingChildren && Waiting(s.below)
  }

  /** Sibling sections differ in name or location, at every level. */
  ghost predicate DistinctIds(body: seq<Section>)
    decreases SectionCount(body)
  {
    && (forall i, j :: 0 <= i < j < |body| ==> body[i].id != body[j].id)
    && (forall i :: 0 <= i < |body| ==> (InnerCount(body, i); DistinctIds(body[i].body)))
  }

  class RunContext {
    const sched: nat -> bool        // the moments at which the test body throws
    var step: nat                   // time
    var spine: Spine                // m_currentTracker and its ancestors
    var completedCycle: bool        // m_runState == CompletedCycle
    var activeSections: seq<nat>    // the depths of the trackers in m_activeSections
    var unfinishedSections: nat
    var visited: seq<Visit>         // what the reporter was told to be starting

    constructor (sched: nat -> bool)
      ensures this.sched == sched
    {
      this.sched := sched;
      step, spine, completedCycle, activeSections, unfinishedSections, visited := 0, Nil, false, [], 0, [];
    }

    /** SectionTracker::acquire: finds or adds the child and, in a cycle that has not completed, tries
        to open it. */
    method Acquire(id: NameAndLocation) returns (open: bool)
      requires spine.On?
      modifies this`spine
      ensures var t := old(spine.top); var i := FindChild(t.children, id);
        var t1 := Acquired(t, id, i); var c := t1.children[i];
        if !completedCycle && CanOpen(c) then
          open && spine == On(c.(state := Executing), OpenChild(On(t1, old(spine.below))))
        else
          open == IsOpen(c) && spine == On(t1, old(spine.below))
    {
      var i := FindChild(spine.top.children, id);
      spine := spine.(top := Acquired(spine.top, id, i));
      var section := spine.top.children[i];
      open := IsOpen(section);
      if !completedCycle && CanOpen(section) {
        open := true;
        spine := On(section.(state := Executing), OpenChild(spine));
      }
    }

    /** sectionStarted */
    method SectionStarted(id: NameAndLocation, visit: Visit) returns (open: bool)
      requires spine.On?
      modifies this`spine, this`activeSections, this`visited
      ensures var t := old(spine.top); var i := FindChild(t.children, id);
        var t1 := Acquired(t, id, i); var c := t1.children[i];
        if !completedCycle && CanOpen(c) then
          && open && spine == On(c.(state := Executing), OpenChild(On(t1, old(spine.below))))
          && activeSections == old(activeSections) + [Depth(spine)] && visited == old(visited) + [visit]
        else if !IsOpen(c) then
          !open && spine == On(t1, old(spine.below)) && activeSections == old(activeSections) && visited == old(visited)
        else open
    {
      open := Acquire(id);
      if !open { return; }
      activeSections := activeSections + [Depth(spine)];
      visited := visited + [visit];
    }

    /** TrackerBase::close on the current tracker; anything but an open tracker is an internal error. */
    method CloseCurrent()
      requires spine.On? && spine.below.On? && IsOpen(spine.top)
      modifies this`spine, this`completedCycle
      ensures spine == CloseTop(old(spine)) && completedCycle
    {
      var t := spine.top;
      match t.state {
        case NeedsAnotherRun =>
        case Executing =>
          t := t.(state := CompletedSuccessfully);
        case ExecutingChildren =>
          if t.children == [] || IsComplete(t.children[|t.children| - 1]) {
            t := t.(state := CompletedSuccessfully);
          }
      }
      spine := On(WriteBack(spine.below.top, t), spine.below.below);
      completedCycle := true;
    }

    /** TrackerBase::close on the tracker at this depth: closes what is still open inside it first. */
    method Close(depth: nat)
      requires depth > 1 && OpenDownTo(spine, depth)
      modifies this`spine, this`completedCycle
      ensures spine == CloseDownTo(old(spine), depth) && completedCycle
    {
      while Depth(spine) > depth
        invariant OpenDownTo(spine, depth)
        invariant CloseDownTo(spine, depth) == CloseDownTo(old(spine), depth)
        decreases Depth(spine)
      {
        CloseTopOpen(spine, depth);
        CloseCurrent();
      }
      assert Depth(spine) == 1 + Depth(spine.below);
      CloseCurrent();
    }

    /** TrackerBase::fail on the current tracker. */
    method FailCurrent()
      requires spine.On? && spine.below.On?
      modifies this`spine, this`completedCycle
      ensures spine == On(WriteBack(old(spine.below.top), old(spine.top).(state := Failed)).(state := NeedsAnotherRun),
                          old(spine.below.below))
      ensures completedCycle
    {
      var t := spine.top.(state := Failed);
      var parent := spine.below.top.(state := NeedsAnotherRun);
      spine := On(WriteBack(parent, t), spine.below.below);
      completedCycle := true;
    }

    /** sectionEnded */
    method SectionEnded()
      requires activeSections != [] ==>
        1 < activeSections[|activeSections| - 1] == Depth(spine) && IsOpen(spine.top)
      modifies this`spine, this`completedCycle, this`activeSections
      ensures old(activeSections) == [] ==>
        spine == old(spine) && completedCycle == old(completedCycle) && activeSections == []
      ensures old(activeSections) != [] ==>
        && old(spine.On? && spine.below.On?) && spine == CloseTop(old(spine))
        && completedCycle && activeSections == old(activeSections)[..|old(activeSections)| - 1]
    {
      if activeSections != [] {
        Close(activeSections[|activeSections| - 1]);
        activeSections := activeSections[..|activeSections| - 1];
      }
    }

    /** sectionEndedEarly: the section the exception was thrown in fails, those around it are closed. */
    method SectionEndedEarly()
      requires activeSections != []
      requires 1 < activeSections[|activeSections| - 1] == Depth(spine) && IsOpen(spine.top)
      modifies this`spine, this`completedCycle, this`activeSections, this`unfinishedSections
      ensures old(spine.On? && spine.below.On?)
      ensures completedCycle && unfinishedSections == old(unfinishedSections) + 1
      ensures activeSections == old(activeSections)[..|old(activeSections)| - 1]
      ensures spine ==
        if old(unfinishedSections) == 0 then
          On(WriteBack(old(spine.below.top), old(spine.top).(state := Failed)).(state := NeedsAnotherRun),
             old(spine.below.below))
        else CloseTop(old(spine))
    {
      if unfinishedSections == 0 {
        FailCurrent();
      } else {
        Close(activeSections[|activeSections| - 1]);
      }
      activeSections := activeSections[..|activeSections| - 1];
      unfinishedSections := unfinishedSections + 1;
    }

    /** The invocation of the test body, or of the block of one section: before each nested section, and
        at its end, it may throw. */
    method RunBody(path: Path, body: seq<Section>) returns (threw: bool)
      requires DistinctIds(body)
      requires spine.On? && spine.below.On? && Waiting(spine.below)
      requires spine.top.state == Executing && QuietChildren(spine.top, body)
      requires !completedCycle && unfinishedSections == 0
      modifies this`step, this`spine, this`completedCycle, this`activeSections, this`unfinishedSections, this`visited
      ensures var r := RunSections(sched, path, old(spine.top), body, 0, false, old(step));
        && spine == On(r.t, old(spine.below)) && completedCycle == r.completed && threw == r.threw
        && step == r.step && visited == old(visited) + r.log
        && (unfinishedSections > 0 <==> r.unfinished)
      ensures activeSections == old(activeSections)
      decreases SectionCount(body), 1
    {
      hide QuietChildren, Waiting, DistinctIds, SectionCount, Left, Continues, RunSections;
      ghost var rest := spine.below;
      ghost var all := RunSections(sched, path, spine.top, body, 0, false, step);
      var i := 0;
      ContinuesStart(sched, path, spine.top, body, step, visited);
      while true
        invariant 0 <= i <= |body|
        invariant spine.On? && spine.below == rest && Ready(spine.top, body, i, completedCycle)
        invariant spine.top.state in {Executing, ExecutingChildren}
        invariant activeSections == old(activeSections) && unfinishedSections == 0
        invariant Continues(sched, path, spine.top, body, i, completedCycle, step, old(visited), visited, all)
        decreases |body| - i
      {
        var now := step;
        step := step + 1;
        if sched(now) || i == |body| {
          ContinuesStops(sched, path, spine.top, body, i, completedCycle, now, old(visited), visited, all);
          return sched(now);
        }
        ghost var t, completed, before := spine.top, completedCycle, visited;
        threw := RunSection(path, body, i);
        ContinuesStep(sched, path, t, body, i, completed, now, old(visited), before, all);
        if threw { return; }
        i := i + 1;
      }
    }

    /** The i-th section of a body, with the guard object that reports it: started, run if it is open,
        and ended, early if an exception is passing. */
    method RunSection(path: Path, body: seq<Section>, i: nat) returns (threw: bool)
      requires DistinctIds(body) && i < |body|
      requires spine.On? && spine.below.On? && Waiting(spine.below)
      requires Ready(spine.top, body, i, completedCycle) && spine.top.state in {Executing, ExecutingChildren}
      requires unfinishedSections == 0
      modifies this`step, this`spine, this`completedCycle, this`activeSections, this`unfinishedSections, this`visited
      ensures activeSections == old(activeSections)
      ensures var t1 := Acquired(old(spine.top), body[i].id, i); var c := t1.children[i];
        if old(completedCycle) || !CanOpen(c) then
          && !threw && spine == On(t1, old(spine.below)) && completedCycle == old(completedCycle)
          && step == old(step) && visited == old(visited) && unfinishedSections == 0
        else
          var r := RunSections(sched, path + [i], c.(state := Executing), body[i].body, 0, false, old(step));
          && threw == r.threw && spine == On(Left(t1, i, r), old(spine.below)) && completedCycle
          && step == r.step && visited == old(visited) + [Visit(path + [i], body[i].body == [])] + r.log
          && (unfinishedSections > 0 <==> r.threw)
      ensures Ready(spine.top, body, i + 1, completedCycle)
      ensures !threw ==> spine.top.state in {Executing, ExecutingChildren}
      decreases SectionCount(body), 0
    {
      hide QuietChildren, RunSections, Waiting, DistinctIds, SectionCount, Left, Resumed;
      var s := body[i];
      InnerCount(body, i);
      FindsSection(spine.top, body, i, completedCycle);
      AcquiredReady(spine.top, body, i, completedCycle);
      DistinctInside(body, i);
      ghost var t1, rest := Acquired(spine.top, s.id, i), spine.below;
      threw := false;
      var open := SectionStarted(s.id, Visit(path + [i], s.body == []));
      if !open { return; }
      OpenedSpine(t1, i, rest);
      OpenReady(t1, body, i);
      StillWaiting(t1, rest);
      ghost var r := RunSections(sched, path + [i], spine.top, s.body, 0, false, step);
      RunProgress(sched, path + [i], spine.top, s.body, 0, false, step);
      threw := RunOpened(path + [i], s);
      Resumes(t1, body, i, rest, r);
      LeftReady(t1, body, i, r);
      LeftState(t1, i, r);
    }

    /** The block of a section whose tracker has just been opened, and the end of the section. */
    method RunOpened(path: Path, s: Section) returns (threw: bool)
      requires DistinctIds(s.body)
      requires spine.On? && spine.below.On? && Waiting(spine.below)
      requires spine.top.state == Executing && QuietChildren(spine.top, s.body)
      requires !completedCycle && unfinishedSections == 0
      requires activeSections != [] && activeSections[|activeSections| - 1] == Depth(spine)
      modifies this`step, this`spine, this`completedCycle, this`activeSections, this`unfinishedSections, this`visited
      ensures var r := RunSections(sched, path, old(spine.top), s.body, 0, false, old(step));
        && threw == r.threw && spine == Resumed(old(spine.below), r) && completedCycle
        && step == r.step && visited == old(visited) + r.log
        && (unfinishedSections > 0 <==> r.threw)
      ensures activeSections == old(activeSections)[..|old(activeSections)| - 1]
      decreases SectionCount(s.body), 2
    {
      hide QuietChildren, RunSections, DistinctIds, SectionCount, WriteBack, Closed;
      OpenedReady(spine.top, s.body);
      RunProgress(sched, path, spine.top, s.body, 0, false, step);
      threw := RunBody(path, s.body);
      if threw {
        SectionEndedEarly();
      } else {
        SectionEnded();
      }
    }

    /** One round of runTest's loop: the test case's tracker is opened, its body run, the tracker closed. */
    method RunCurrentTest(id: NameAndLocation, body: seq<Section>)
      requires DistinctIds(body) && activeSections == [] && unfinishedSections == 0
      requires spine.On? && spine.below == Nil && spine.top.state != NeedsAnotherRun
      requires spine.top.children == [] ||
        (|spine.top.children| == 1 && spine.top.children[0].id == id && Quiet(spine.top.children[0], body))
      requires CanOpen(Acquired(spine.top, id, 0).children[0])
      modifies this`step, this`spine, this`completedCycle, this`activeSections, this`unfinishedSections, this`visited
      ensures var r := RunCycle(sched, Acquired(old(spine.top), id, 0).children[0], body, old(step));
        && spine == On(Tracker(old(spine.top.id), ExecutingChildren, old(spine.top.filters), [r.t]), Nil)
        && step == r.step && visited == old(visited) + r.log
      ensures activeSections == [] && unfinishedSections == 0
    {
      hide QuietChildren, RunSections, DistinctIds, SectionCount, Waiting, CloseDownTo, OpenDownTo, OpenChild;
      completedCycle := false;  // startCycle: the current tracker is the root
      ghost var t1 := Acquired(spine.top, id, 0);
      ghost var t := t1.children[0];
      TestCaseQuiet(t, body);
      TestCaseSpine(t1);
      var open := Acquire(id);
      OpenedReady(spine.top, body);
      RunProgress(sched, [], spine.top, body, 0, false, step);
      var threw := RunBody([], body);
      RootRemains(t1, spine.top);
      Close(2);
      HandleUnfinishedSections();
    }

    /** handleUnfinishedSections: nothing is active any more, so nothing is closed. */
    method HandleUnfinishedSections()
      requires activeSections == []
      modifies this`spine, this`completedCycle, this`activeSections, this`unfinishedSections
      ensures activeSections == [] && unfinishedSections == 0
      ensures spine == old(spine) && completedCycle == old(completedCycle)
    {
      while unfinishedSections > 0
        invariant activeSections == [] && spine == old(spine) && completedCycle == old(completedCycle)
      {
        SectionEnded();
        unfinishedSections := unfinishedSections - 1;
      }
    }

    /** runTest's loop: rounds until the test case completed successfully. It ends, whatever throws and
        whatever the filters let through, within one round more than there are sections; undisturbed
        and unfiltered it takes as many rounds as there are leaves (one if there are no sections) and
        runs each leaf once, depth first. The current tracker is the root again. */
    method RunTest(rootId: NameAndLocation, id: NameAndLocation, body: seq<Section>, filters: seq<string>)
      returns (cycles: nat)
      requires DistinctIds(body) && activeSections == [] && unfinishedSections == 0
      modifies this
      ensures 0 < cycles <= 1 + SectionCount(body)
      ensures spine.On? && spine.below == Nil && |spine.top.children| == 1
      ensures spine.top.children[0].state == CompletedSuccessfully
      ensures var t := NewTracker(id, RootFilters(filters));
        && spine.top.children[0] == After(sched, t, body, old(step), cycles).0
        && visited == old(visited) + AllEntered(sched, t, body, old(step), cycles)
      ensures |visited| >= |old(visited)| && visited[..|old(visited)|] == old(visited)
      ensures Calm(sched) && filters == [] ==>
        && cycles == |LeavesOf([], body)|
        && LeafPaths(visited[|old(visited)|..]) == if body == [] then [] else LeavesOf([], body)
      ensures var run, leaves := LeafPaths(visited[|old(visited)|..]), SelectedLeaves(filters, [], body, 0);
        && InOrder(run, leaves) && Distinct(run)
        && (run == leaves <==> Lost(filters, [], spine.top.children[0], body) == 0)
        && (OnlyLeavesThrow(sched, NewTracker(id, RootFilters(filters)), body, old(step), cycles) || Calm(sched) ==>
              run == leaves)
    {
      hide Quiet, RunCycle, After, Entered, AllEntered, SectionCount, Done, RootFilters, NextFilters, InOrder, Distinct,
        Lost, SelectedLeaves, OnlyLeavesThrow, LeafPaths, LeavesOf;
      spine := On(Tracker(rootId, NotStarted, RootFilters(filters), []), Nil);
      ghost var start := step;
      ghost var t := NewTracker(id, RootFilters(filters));
      ghost var u := t;
      cycles := 0;
      NewQuiet(id, RootFilters(filters), body);
      NoRounds(sched, t, body, start);
      TestCaseOpens(u, filters);
      assert visited == old(visited) + [];
      var done := false;
      while !done
        invariant activeSections == [] && unfinishedSections == 0
        invariant spine.On? && spine.below == Nil && spine.top.state in {NotStarted, ExecutingChildren}
        invariant spine.top.filters == RootFilters(filters)
        invariant if cycles == 0 then spine.top.children == [] && u == t else spine.top.children == [u]
        invariant Quiet(u, body) && u.id == id && u.filters == t.filters && u.state != Failed
        invariant done <==> u.state == CompletedSuccessfully
        invariant cycles <= Done(u) <= 1 + SectionCount(body)
        invariant After(sched, t, body, start, cycles) == (u, step)
        invariant visited == old(visited) + AllEntered(sched, t, body, start, cycles)
        invariant cycles > 0 ==> !IsComplete(After(sched, t, body, start, cycles - 1).0)
        decreases 1 + SectionCount(body) - Done(u)
      {
        TestCaseOpens(u, filters);
        assert Acquired(spine.top, id, 0).children[0] == u;
        CycleProgress(sched, u, body, step);
        NextRound(sched, t, body, start, cycles, u, step, old(visited));
        RunCurrentTest(id, body);
        u := spine.top.children[0];
        cycles := cycles + 1;
        done := spine.top.children[FindChild(spine.top.children, id)].state == CompletedSuccessfully;
      }
      assert visited[|old(visited)|..] == AllEntered(sched, t, body, start, cycles);
      RunsSelected(sched, filters, id, body, start, cycles);
      if Calm(sched) && filters == [] {
        NoFilters(id);
        RunsEachLeaf(sched, id, body, start, cycles);
      }
    }
  }

  lemma NoFilters(id: NameAndLocation)
    ensures NewTracker(id, RootFilters([])) == NewTracker(id, [])
  {
  }

  lemma NoRounds(sched: nat -> bool, t: Tracker, body: seq<Section>, start: nat)
    ensures After(sched, t, body, start, 0) == (t, start) && AllEntered(sched, t, body, start, 0) == []
  {
  }

  /** One more round of the loop. */
  lemma NextRound(
    sched: nat -> bool, t: Tracker, body: seq<Section>, start: nat, n: nat, u: Tracker, step: nat, before: seq<Visit>)
    requires After(sched, t, body, start, n) == (u, step) && u.state != CompletedSuccessfully
    ensures var r := RunCycle(sched, u, body, step);
      && After(sched, t, body, start, n + 1) == (r.t, r.step)
      && before + AllEntered(sched, t, body, start, n) + r.log == before + AllEntered(sched, t, body, start, n + 1)
  {
    hide RunCycle;
    var r := RunCycle(sched, u, body, step);
    assert before + AllEntered(sched, t, body, start, n) + r.log ==
          before + (AllEntered(sched, t, body, start, n) + r.log);
  }

  lemma NewQuiet(id: NameAndLocation, filters: seq<string>, body: seq<Section>)
    ensures Quiet(NewTracker(id, filters), body) && Done(NewTracker(id, filters)) == 0
  {
  }

  /** The test case's own filter is empty. */
  lemma TestCaseOpens(t: Tracker, filters: seq<string>)
    requires t.filters == NextFilters(RootFilters(filters))
    ensures !IsComplete(t) ==> CanOpen(t)
  {
  }

  /** An undisturbed run that stopped after n rounds, and not before, ran each leaf once. */
  lemma RunsEachLeaf(sched: nat -> bool, id: NameAndLocation, body: seq<Section>, start: nat, n: nat)
    requires Calm(sched) && n > 0
    requires After(sched, NewTracker(id, []), body, start, n).0.state == CompletedSuccessfully
    requires !IsComplete(After(sched, NewTracker(id, []), body, start, n - 1).0)
    ensures n == |LeavesOf([], body)|
    ensures LeafPaths(AllEntered(sched, NewTracker(id, []), body, start, n)) ==
            if body == [] then [] else LeavesOf([], body)
  {
    hide RunCycle, LeavesOf, Entered, Tidy;
    var t, leaves := NewTracker(id, []), LeavesOf([], body);
    if n < |leaves| {
      EachLeafOnce(sched, id, body, start, n);
    } else if n > |leaves| {
      EachLeafOnce(sched, id, body, start, |leaves|);
      TidyNotFailed(After(sched, t, body, start, |leaves|).0, body);
      StaysDone(sched, t, body, start, |leaves|, n - 1);
    }
    if body == [] {
      NoLeaves();
      EachLeafOnce(sched, id, body, start, 0);
      assert AllEntered(sched, t, body, start, 1) ==
             AllEntered(sched, t, body, start, 0) + Entered(sched, t, body, start, 0);
      assert [] + Entered(sched, t, body, start, 0) == Entered(sched, t, body, start, 0);
    } else {
      LeavesInOrder(sched, id, body, start, n);
      assert leaves[..n] == leaves;
    }
  }

  lemma NoLeaves()
    ensures LeavesOf([], []) == [[]]
  {
  }

  lemma TidyNotFailed(t: Tracker, body: seq<Section>)
    requires Tidy(t, body) && IsComplete(t)
    ensures t.state == CompletedSuccessfully
  {
  }

  lemma {:induction false} StaysDone(sched: nat -> bool, t: Tracker, body: seq<Section>, start: nat, m: nat, n: nat)
    requires m <= n && After(sched, t, body, start, m).0.state == CompletedSuccessfully
    ensures After(sched, t, body, start, n) == After(sched, t, body, start, m)
    decreases n
  {
    hide RunCycle;
    if m < n { StaysDone(sched, t, body, start, m, n - 1); }
  }

  /** What is left to do, added to what was entered so far, makes up the whole run. */
  ghost predicate Continues(
    sched: nat -> bool, path: Path, t: Tracker, body: seq<Section>, i: nat, completed: bool, step: nat,
    before: seq<Visit>, visited: seq<Visit>, all: Outcome)
    requires i <= |body| && i <= |t.children|
  {
    var r := RunSections(sched, path, t, body, i, completed, step);
    visited + r.log == before + all.log && r.(log := all.log) == all
  }

  lemma ContinuesStart(sched: nat -> bool, path: Path, t: Tracker, body: seq<Section>, step: nat, visited: seq<Visit>)
    ensures Continues(sched, path, t, body, 0, false, step, visited, visited,
                      RunSections(sched, path, t, body, 0, false, step))
  {
    hide RunSections;
  }

  /** A run that throws before its next section, or has none left, is over. */
  lemma ContinuesStops(
    sched: nat -> bool, path: Path, t: Tracker, body: seq<Section>, i: nat, completed: bool, step: nat,
    before: seq<Visit>, visited: seq<Visit>, all: Outcome)
    requires i <= |body| && i <= |t.children| && (sched(step) || i == |body|)
    requires Continues(sched, path, t, body, i, completed, step, before, visited, all)
    ensures all == Outcome(t, completed, sched(step), false, all.log, step + 1) && visited == before + all.log
  {
    assert visited + [] == visited;
  }

  /** The i-th section of a run that continues. */
  lemma ContinuesStep(
    sched: nat -> bool, path: Path, t: Tracker, body: seq<Section>, i: nat, completed: bool, step: nat,
    before: seq<Visit>, visited: seq<Visit>, all: Outcome)
    requires i < |body| && i <= |t.children| && !sched(step)
    requires Continues(sched, path, t, body, i, completed, step, before, visited, all)
    ensures var t1 := Acquired(t, body[i].id, i); var c := t1.children[i];
      if completed || !CanOpen(c) then
        Continues(sched, path, t1, body, i + 1, completed, step + 1, before, visited, all)
      else
        var r := RunSections(sched, path + [i], c.(state := Executing), body[i].body, 0, false, step + 1);
        var log := visited + [Visit(path + [i], body[i].body == [])] + r.log;
        if r.threw then log == before + all.log && all == Outcome(Left(t1, i, r), true, true, true, all.log, r.step)
        else Continues(sched, path, Left(t1, i, r), body, i + 1, true, r.step, before, log, all)
  {
    InnerCount(body, i);
    var t1 := Acquired(t, body[i].id, i);
    var c := t1.children[i];
    if !completed && CanOpen(c) {
      var r := RunSections(sched, path + [i], c.(state := Executing), body[i].body, 0, false, step + 1);
      var v := [Visit(path + [i], body[i].body == [])];
      if r.threw {
        assert visited + (v + r.log) == visited + v + r.log;
      } else {
        var r2 := RunSections(sched, path, Left(t1, i, r), body, i + 1, true, r.step);
        assert visited + (v + r.log + r2.log) == visited + v + r.log + r2.log;
      }
    }
  }

  lemma FindsSection(t: Tracker, body: seq<Section>, i: nat, completed: bool)
    requires DistinctIds(body) && Ready(t, body, i, completed) && i < |body|
    ensures FindChild(t.children, body[i].id) == i
    ensures var c := Acquired(t, body[i].id, i).children[i]; completed || !CanOpen(c) ==> !IsOpen(c)
  {
    var k := FindChild(t.children, body[i].id);
    forall j | 0 <= j < i ensures t.children[j].id == body[j].id != body[i].id {}
    if i < |t.children| { assert Quiet(t.children[i], body[i].body); }
  }

  lemma WritesBack(t: Tracker, body: seq<Section>, i: nat, child: Tracker)
    requires DistinctIds(body) && QuietChildren(t, body) && i < |t.children| && i < |body| && child.id == body[i].id
    ensures WriteBack(t.(state := ExecutingChildren), child) ==
      t.(state := ExecutingChildren, children := t.children[i := child])
    ensures WriteBack(t.(state := NeedsAnotherRun), child) ==
      t.(state := NeedsAnotherRun, children := t.children[i := child])
  {
    var k := FindChild(t.children, child.id);
    assert t.children[i].id == body[i].id;
    forall j | 0 <= j < i ensures t.children[j].id == body[j].id != body[i].id {}
  }

  /** Opening the test case's tracker below the root. */
  lemma TestCaseSpine(root: Tracker)
    requires root.state != NeedsAnotherRun
    ensures OpenChild(On(root, Nil)) == On(root.(state := ExecutingChildren), Nil)
    ensures Waiting(On(root.(state := ExecutingChildren), Nil))
  {
  }

  /** Closing the test case's tracker, the root's only child, leaves the root alone. */
  lemma RootRemains(root: Tracker, t: Tracker)
    requires |root.children| == 1 && root.children[0].id == t.id && IsOpen(t)
    ensures var s := On(t, On(root.(state := ExecutingChildren), Nil));
      && OpenDownTo(s, 2)
      && CloseDownTo(s, 2) == On(root.(state := ExecutingChildren, children := [Closed(t)]), Nil)
  {
    var s := On(t, On(root.(state := ExecutingChildren), Nil));
    assert s.below.below == Nil && Depth(s.below) == 1;
    assert root.children[0 := Closed(t)] == [Closed(t)];
  }

  lemma DistinctInside(body: seq<Section>, i: nat)
    requires DistinctIds(body) && i < |body|
    ensures DistinctIds(body[i].body)
  {
  }

  /** Opening a child of a tracker that waits below nothing else. */
  lemma OpenedSpine(t: Tracker, i: nat, rest: Spine)
    requires i < |t.children| && Waiting(rest) && t.state in {Executing, ExecutingChildren}
    ensures OpenChild(On(t, rest)) == On(t.(state := ExecutingChildren), rest)
  {
    if rest.On? {
      assert OpenChild(rest) == rest;
    }
  }

  lemma StillWaiting(t: Tracker, rest: Spine)
    requires Waiting(rest)
    ensures Waiting(On(t.(state := ExecutingChildren), rest))
  {
  }

  /** What is resumed after section i is the tracker it leaves behind. */
  lemma Resumes(t: Tracker, body: seq<Section>, i: nat, rest: Spine, r: Outcome)
    requires DistinctIds(body) && QuietChildren(t, body) && i < |t.children| && i < |body| && r.t.id == body[i].id
    ensures Resumed(On(t.(state := ExecutingChildren), rest), r) == On(Left(t, i, r), rest)
  {
    hide QuietChildren, DistinctIds;
    WritesBack(t, body, i, r.t.(state := Failed));
    WritesBack(t, body, i, Closed(r.t));
  }

  lemma TestCaseQuiet(t: Tracker, body: seq<Section>)
    requires Quiet(t, body) || t.children == []
    ensures QuietChildren(t.(state := Executing), body)
  {
    if Quiet(t, body) { SameChildren(t, body); }
  }
}
