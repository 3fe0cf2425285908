/** Which leaf sections a test case enters, for every schedule of exceptions and every list of section filters: the
    selected ones, in order, each at most once; and none is lost but inside a section whose own code threw. */
module CatchLeaves {
  import opened CatchTracker
  import opened CatchOnce

  // ---------- the leaves that filters select ----------

  /** The filter at a depth names the section wanted there; an empty one, or none, admits every section. */
  predicate Selected(filters: seq<string>, depth: nat, name: string) {
    depth < |filters| && filters[depth] != "" ==> filters[depth] == name
  }

  /** The selected leaves of a body from its i-th section on, depth first. */
  ghost function SelectedLeaves(filters: seq<string>, path: Path, body: seq<Section>, i: nat): seq<Path>
    requires i <= |body|
    decreases SectionCount(body), |body| - i
  {
    if i == |body| then []
    else
      InnerCount(body, i);
      (if Selected(filters, |path|, body[i].id.name) then SelectedLeavesOf(filters, path + [i], body[i].body) else [])
      + SelectedLeaves(filters, path, body, i + 1)
  }

  ghost function SelectedLeavesOf(filters: seq<string>, path: Path, body: seq<Section>): seq<Path>
    decreases SectionCount(body), |body| + 1
  {
    if body == [] then [path] else SelectedLeaves(filters, path, body, 0)
  }

  /** The filters for sections at this depth and below. */
  function FiltersFrom(filters: seq<string>, depth: nat): seq<string> {
    if depth < |filters| then filters[depth..] else []
  }

  /** The trackers inside t, whose children are at this depth, hold the filters of their depths. */
  ghost predicate Filtered(t: Tracker, filters: seq<string>, depth: nat)
    decreases t
  {
    && NextFilters(t.filters) == FiltersFrom(filters, depth)
    && (forall i :: 0 <= i < |t.children| ==>
          t.children[i].filters == FiltersFrom(filters, depth) && Filtered(t.children[i], filters, depth + 1))
  }

  /** Without filters all leaves are selected. */
  lemma {:induction false} NoneFiltered(path: Path, body: seq<Section>, i: nat)
    requires i <= |body|
    ensures SelectedLeaves([], path, body, i) == Leaves(path, body, i)
    decreases SectionCount(body), |body| - i
  {
    if i < |body| {
      InnerCount(body, i);
      NoneFiltered(path, body, i + 1);
      if body[i].body != [] { NoneFiltered(path + [i], body[i].body, 0); }
    }
  }

  // ---------- leaves pending and leaves lost ----------

  /** The selected leaves not yet run, according to the trackers. */
  ghost function Pending(filters: seq<string>, path: Path, t: Tracker, body: seq<Section>, i: nat): seq<Path>
    requires i <= |body|
    decreases SectionCount(body), |body| - i
  {
    if i == |body| then []
    else
      InnerCount(body, i);
      (if !Selected(filters, |path|, body[i].id.name) then []
       else if i < |t.children| then PendingOf(filters, path + [i], t.children[i], body[i].body)
       else SelectedLeavesOf(filters, path + [i], body[i].body))
      + Pending(filters, path, t, body, i + 1)
  }

  ghost function PendingOf(filters: seq<string>, path: Path, t: Tracker, body: seq<Section>): seq<Path>
    decreases SectionCount(body), |body| + 1
  {
    if IsComplete(t) then [] else if body == [] then [path] else Pending(filters, path, t, body, 0)
  }

  /** The number of selected leaves that never ran although a section around them is complete. */
  ghost function Lost(filters: seq<string>, path: Path, t: Tracker, body: seq<Section>): nat
    decreases SectionCount(body), |body| + 1
  {
    (if IsComplete(t) then |Pending(filters, path, t, body, 0)| else 0) + LostFrom(filters, path, t, body, 0)
  }

  ghost function LostFrom(filters: seq<string>, path: Path, t: Tracker, body: seq<Section>, i: nat): nat
    requires i <= |body|
    decreases SectionCount(body), |body| - i
  {
    if i == |body| || i >= |t.children| then 0
    else
      InnerCount(body, i);
      Lost(filters, path + [i], t.children[i], body[i].body) + LostFrom(filters, path, t, body, i + 1)
  }

  /** Pending and LostFrom look at the children from i on only. */
  lemma {:induction false} SameBehind(
    filters: seq<string>, path: Path, t: Tracker, u: Tracker, body: seq<Section>, i: nat)
    requires i <= |body| && |t.children| == |u.children|
    requires forall j :: i <= j < |t.children| ==> t.children[j] == u.children[j]
    ensures Pending(filters, path, t, body, i) == Pending(filters, path, u, body, i)
    ensures LostFrom(filters, path, t, body, i) == LostFrom(filters, path, u, body, i)
    decreases |body| - i
  {
    hide PendingOf, SelectedLeavesOf, Lost, Selected;
    if i < |body| { SameBehind(filters, path, t, u, body, i + 1); }
  }

  /** A new tracker has all the selected leaves before it. */
  lemma {:induction false} NewPending(filters: seq<string>, path: Path, t: Tracker, body: seq<Section>, i: nat)
    requires i <= |body| && |t.children| <= i
    ensures Pending(filters, path, t, body, i) == SelectedLeaves(filters, path, body, i)
    ensures LostFrom(filters, path, t, body, i) == 0
    decreases |body| - i
  {
    hide PendingOf, SelectedLeavesOf, Lost, Selected;
    if i < |body| { NewPending(filters, path, t, body, i + 1); }
  }

  /** Looking a section up changes nothing. */
  lemma AcquiredPending(filters: seq<string>, path: Path, t: Tracker, body: seq<Section>, i: nat)
    requires i < |body| && i <= |t.children| && Filtered(t, filters, |path|)
    ensures var t1 := Acquired(t, body[i].id, i);
      && Filtered(t1, filters, |path|)
      && Pending(filters, path, t1, body, i) == Pending(filters, path, t, body, i)
      && LostFrom(filters, path, t1, body, i) == LostFrom(filters, path, t, body, i)
  {
    if i == |t.children| {
      var c := NewTracker(body[i].id, t.filters);
      assert Filtered(c, filters, |path| + 1);
      hide Pending, PendingOf, SelectedLeaves, SelectedLeavesOf, Lost, LostFrom, Selected, Filtered;
      NewChild(filters, path, t, Acquired(t, body[i].id, i), body, i);
    }
  }

  lemma NewChild(filters: seq<string>, path: Path, t: Tracker, t1: Tracker, body: seq<Section>, i: nat)
    requires i < |body| && |t.children| == i && |t1.children| == i + 1
    requires t1.children[i].children == [] && !IsComplete(t1.children[i])
    ensures Pending(filters, path, t1, body, i) == Pending(filters, path, t, body, i)
    ensures LostFrom(filters, path, t1, body, i) == LostFrom(filters, path, t, body, i)
  {
    InnerCount(body, i);
    NewPending(filters, path, t, body, i + 1);
    NewPending(filters, path, t1, body, i + 1);
    NewPending(filters, path + [i], t1.children[i], body[i].body, 0);
  }

  lemma UnfoldPending(filters: seq<string>, path: Path, t: Tracker, body: seq<Section>, i: nat)
    requires i < |body| && i < |t.children|
    ensures Pending(filters, path, t, body, i) ==
      (if Selected(filters, |path|, body[i].id.name) then PendingOf(filters, path + [i], t.children[i], body[i].body)
       else [])
      + Pending(filters, path, t, body, i + 1)
    ensures LostFrom(filters, path, t, body, i) ==
      Lost(filters, path + [i], t.children[i], body[i].body) + LostFrom(filters, path, t, body, i + 1)
  {
    hide PendingOf, Lost, Selected;
  }

  /** tryOpen opens a child exactly when it is incomplete and selected. */
  lemma OpensSelected(filters: seq<string>, depth: nat, t: Tracker, i: nat)
    requires i < |t.children| && Filtered(t, filters, depth)
    ensures var c := t.children[i];
      CanOpen(c) <==> !IsComplete(c) && Selected(filters, depth, c.id.name)
  {
  }

  // ---------- one cycle ----------

  /** Of the leaves pending at most the first was run, and what is pending now is an end of the rest. */
  ghost predicate Drops(before: seq<Path>, run: seq<Path>, after: seq<Path>) {
    && |run| <= 1 && run <= before && |run| + |after| <= |before|
    && after == before[|before| - |after|..]
  }

  /** No leaf appears from nowhere or vanishes without a trace. */
  ghost predicate Conserves(
    filters: seq<string>, path: Path, t: Tracker, body: seq<Section>, i: nat, completed: bool, r: Outcome)
    requires i <= |body| && i <= |t.children|
  {
    var before, after := Pending(filters, path, t, body, i), Pending(filters, path, r.t, body, i);
    && Filtered(r.t, filters, |path|)
    && |r.t.children| >= |t.children| && r.t.children[..i] == t.children[..i]
    && Drops(before, LeafPaths(r.log), after)
    && |LeafPaths(r.log)| + |after| + LostFrom(filters, path, r.t, body, i)
       == |before| + LostFrom(filters, path, t, body, i)
    && (completed ==> r.log == [] && after == before)
  }

  /** The tracker of a section after its block was run as r. */
  function Ended(r: Outcome): Tracker { if ThrewHere(r) then r.t.(state := Failed) else Closed(r.t) }

  lemma UnfoldOf(filters: seq<string>, path: Path, t: Tracker, body: seq<Section>)
    ensures PendingOf(filters, path, t, body) ==
      if IsComplete(t) then [] else if body == [] then [path] else Pending(filters, path, t, body, 0)
    ensures Lost(filters, path, t, body) ==
      (if IsComplete(t) then |Pending(filters, path, t, body, 0)| else 0) + LostFrom(filters, path, t, body, 0)
  {
    hide Pending, LostFrom;
  }

  /** A leaf that is entered runs itself; any other section what its body ran. */
  lemma EnteredDrops(path: Path, leaf: bool, before: seq<Path>, run: seq<Path>, after: seq<Path>, complete: bool)
    requires Drops(before, run, after) && (leaf ==> before == [] && complete)
    ensures var left := if complete then [] else after;
      if leaf then Drops([path], [path] + run, left) && |run| == 0
      else Drops(before, [] + run, left) && |[] + run| == |run|
  {
    assert [] + run == run;
    if complete { assert before[|before|..] == []; }
  }

  /** A section that was entered: what it ran, what it has pending and what it lost. */
  lemma EnteredConserves(filters: seq<string>, path: Path, c: Tracker, body: seq<Section>, r: Outcome)
    requires !IsComplete(c) && Conserves(filters, path, c.(state := Executing), body, 0, false, r)
    requires body == [] ==> IsComplete(Ended(r)) && r.log == []
    ensures var run := LeafPaths([Visit(path, body == [])] + r.log);
      && Filtered(Ended(r), filters, |path|)
      && Drops(PendingOf(filters, path, c, body), run, PendingOf(filters, path, Ended(r), body))
      && |run| + |PendingOf(filters, path, Ended(r), body)| + Lost(filters, path, Ended(r), body)
         == |PendingOf(filters, path, c, body)| + Lost(filters, path, c, body)
  {
    var open, u := c.(state := Executing), Ended(r);
    hide Pending, PendingOf, Lost, LostFrom, LeafPaths, Filtered, Drops;
    EntryLogged(path, body == [], r.log);
    SameBehind(filters, path, c, open, body, 0);
    SameBehind(filters, path, r.t, u, body, 0);
    StateOnly(r.t, u, filters, |path|);
    UnfoldOf(filters, path, c, body);
    UnfoldOf(filters, path, u, body);
    if body == [] {
      NothingInside(filters, path, c);
      NothingInside(filters, path, u);
    }
    EnteredDrops(path, body == [], Pending(filters, path, c, body, 0), LeafPaths(r.log),
      Pending(filters, path, u, body, 0), IsComplete(u));
  }

  lemma NothingInside(filters: seq<string>, path: Path, t: Tracker)
    ensures Pending(filters, path, t, [], 0) == [] && LostFrom(filters, path, t, [], 0) == 0
  {
  }

  lemma StateOnly(t: Tracker, u: Tracker, filters: seq<string>, depth: nat)
    requires Filtered(t, filters, depth) && u.filters == t.filters && u.children == t.children
    ensures Filtered(u, filters, depth)
  {
  }

  /** The i-th section was passed over. */
  lemma SkippedConserves(
    filters: seq<string>, path: Path, t: Tracker, t1: Tracker, body: seq<Section>, i: nat, completed: bool, r: Outcome)
    requires i < |body| && i <= |t.children| <= |t1.children| && i < |t1.children|
    requires t1.children[..i] == t.children[..i]
    requires Pending(filters, path, t1, body, i) == Pending(filters, path, t, body, i)
    requires LostFrom(filters, path, t1, body, i) == LostFrom(filters, path, t, body, i)
    requires completed || IsComplete(t1.children[i]) || !Selected(filters, |path|, body[i].id.name)
    requires Conserves(filters, path, t1, body, i + 1, completed, r)
    ensures Conserves(filters, path, t, body, i, completed, r)
  {
    hide Pending, PendingOf, LostFrom, SelectedLeavesOf, Lost, Selected, LeafPaths, Filtered, Drops;
    UnfoldPending(filters, path, t1, body, i);
    UnfoldPending(filters, path, r.t, body, i);
    KeptChildren(t1.children, t1.children, r.t.children, i);
    UnfoldOf(filters, path + [i], t1.children[i], body[i].body);
    var first := if Selected(filters, |path|, body[i].id.name)
                 then PendingOf(filters, path + [i], t1.children[i], body[i].body) else [];
    SkippedDrops(first, Pending(filters, path, t1, body, i + 1), LeafPaths(r.log),
      Pending(filters, path, r.t, body, i + 1));
    NoLeafPaths();
  }

  /** Nothing was run, or nothing stands in front. */
  lemma SkippedDrops(first: seq<Path>, before: seq<Path>, run: seq<Path>, after: seq<Path>)
    requires Drops(before, run, after)
    ensures run == [] && before == after ==> Drops(first + before, run, first + after)
    ensures first == [] ==> Drops(first + before, run, first + after)
    ensures |first + before| == |first| + |before| && |first + after| == |first| + |after|
  {
    assert first == [] ==> first + before == before && first + after == after;
  }

  /** What is behind a section stays, when a first part is dropped from it. */
  lemma DropsFirst(first: seq<Path>, run: seq<Path>, left: seq<Path>, rest: seq<Path>)
    requires Drops(first, run, left)
    ensures Drops(first + rest, run, left + rest)
  {
    var k := |first| - |left|;
    assert (first + rest)[k..] == first[k..] + rest;
    assert (first + rest)[..|run|] == first[..|run|];
  }

  /** Where a run stops nothing changes. */
  lemma StoppedConserves(
    filters: seq<string>, path: Path, t: Tracker, body: seq<Section>, i: nat, completed: bool, r: Outcome)
    requires i <= |body| && i <= |t.children| && Filtered(t, filters, |path|) && r.t == t && r.log == []
    ensures Conserves(filters, path, t, body, i, completed, r)
  {
    hide Pending, LostFrom, Filtered;
    NoLeafPaths();
  }

  lemma OpenFiltered(t: Tracker, filters: seq<string>, path: Path, i: nat)
    requires i < |t.children| && Filtered(t, filters, |path|)
    ensures Filtered(t.children[i].(state := Executing), filters, |path + [i]|)
  {
    assert Filtered(t.children[i], filters, |path| + 1);
    StateOnly(t.children[i], t.children[i].(state := Executing), filters, |path| + 1);
  }

  /** A leaf section is complete when its block has run. */
  lemma LeafEnds(sched: nat -> bool, path: Path, t: Tracker, body: seq<Section>, step: nat)
    requires t.state == Executing
    ensures var r := RunSections(sched, path, t, body, 0, false, step);
      body == [] ==> IsComplete(Ended(r)) && r.log == []
  {
  }

  lemma LeftFiltered(t: Tracker, filters: seq<string>, path: Path, i: nat, r: Outcome)
    requires i < |t.children| && Filtered(t, filters, |path|) && Filtered(Ended(r), filters, |path| + 1)
    requires r.t.filters == t.children[i].filters
    ensures Filtered(Left(t, i, r), filters, |path|)
    ensures Left(t, i, r).children == t.children[i := Ended(r)]
  {
  }

  /** The i-th section was entered and run as r, and the rest of the body, in a completed cycle, as rest. */
  lemma LeftConserves(
    filters: seq<string>, path: Path, t: Tracker, t1: Tracker, body: seq<Section>, i: nat, r: Outcome, rest: Outcome)
    requires i < |body| && i <= |t.children| <= |t1.children| && i < |t1.children|
    requires t1.children[..i] == t.children[..i] && !IsComplete(t1.children[i])
    requires Pending(filters, path, t1, body, i) == Pending(filters, path, t, body, i)
    requires LostFrom(filters, path, t1, body, i) == LostFrom(filters, path, t, body, i)
    requires Selected(filters, |path|, body[i].id.name)
    requires var inner := path + [i]; var c := t1.children[i];
      var run := LeafPaths([Visit(inner, body[i].body == [])] + r.log);
      && Drops(PendingOf(filters, inner, c, body[i].body), run, PendingOf(filters, inner, Ended(r), body[i].body))
      && |run| + |PendingOf(filters, inner, Ended(r), body[i].body)| + Lost(filters, inner, Ended(r), body[i].body)
         == |PendingOf(filters, inner, c, body[i].body)| + Lost(filters, inner, c, body[i].body)
    requires Left(t1, i, r).children == t1.children[i := Ended(r)]
    requires Conserves(filters, path, Left(t1, i, r), body, i + 1, true, rest)
    ensures Conserves(filters, path, t, body, i, false,
                      rest.(log := [Visit(path + [i], body[i].body == [])] + r.log + rest.log))
  {
    hide Pending, PendingOf, SelectedLeavesOf, Lost, LostFrom, Filtered, LeafPaths, Selected, Ended, Left;
    var t2, inner := Left(t1, i, r), path + [i];
    var log := [Visit(inner, body[i].body == [])] + r.log;
    SameBehind(filters, path, t1, t2, body, i + 1);
    UnfoldPending(filters, path, t1, body, i);
    UnfoldPending(filters, path, rest.t, body, i);
    KeptChildren(t1.children, t2.children, rest.t.children, i);
    DropsFirst(PendingOf(filters, inner, t1.children[i], body[i].body), LeafPaths(log),
      PendingOf(filters, inner, Ended(r), body[i].body), Pending(filters, path, t1, body, i + 1));
    NothingAdded(log, rest.log);
  }

  /** The i-th section was entered and left by an exception. */
  lemma ThrownConserves(
    filters: seq<string>, path: Path, t: Tracker, t1: Tracker, body: seq<Section>, i: nat, r: Outcome)
    requires i < |body| && i <= |t.children| <= |t1.children| && i < |t1.children|
    requires t1.children[..i] == t.children[..i] && !IsComplete(t1.children[i])
    requires Pending(filters, path, t1, body, i) == Pending(filters, path, t, body, i)
    requires LostFrom(filters, path, t1, body, i) == LostFrom(filters, path, t, body, i)
    requires Selected(filters, |path|, body[i].id.name)
    requires var inner := path + [i]; var c := t1.children[i];
      var run := LeafPaths([Visit(inner, body[i].body == [])] + r.log);
      && Drops(PendingOf(filters, inner, c, body[i].body), run, PendingOf(filters, inner, Ended(r), body[i].body))
      && |run| + |PendingOf(filters, inner, Ended(r), body[i].body)| + Lost(filters, inner, Ended(r), body[i].body)
         == |PendingOf(filters, inner, c, body[i].body)| + Lost(filters, inner, c, body[i].body)
    requires Left(t1, i, r).children == t1.children[i := Ended(r)]
    requires Filtered(Left(t1, i, r), filters, |path|)
    ensures Conserves(filters, path, t, body, i, false,
                      Outcome(Left(t1, i, r), true, true, true,
                              [Visit(path + [i], body[i].body == [])] + r.log, r.step))
  {
    hide *;
    var rest := Outcome(Left(t1, i, r), true, true, true, [], r.step);
    var log := [Visit(path + [i], body[i].body == [])] + r.log;
    StoppedConserves(filters, path, Left(t1, i, r), body, i + 1, true, rest);
    LeftConserves(filters, path, t, t1, body, i, r, rest);
    assert log + [] == log;
  }

  lemma {:induction false} RunConserves(
    sched: nat -> bool, filters: seq<string>, path: Path, t: Tracker, body: seq<Section>, i: nat, completed: bool,
    step: nat)
    requires Ready(t, body, i, completed) && t.state in {Executing, ExecutingChildren}
    requires Filtered(t, filters, |path|)
    ensures Conserves(filters, path, t, body, i, completed,
                      RunSections(sched, path, t, body, i, completed, step))
    decreases SectionCount(body), |body| - i
  {
    hide Pending, PendingOf, Lost, LostFrom, Filtered, QuietChildren, Untouched, LeafPaths, Selected, Conserves, Closed;
    if sched(step) || i == |body| {
      StoppedConserves(filters, path, t, body, i, completed, RunSections(sched, path, t, body, i, completed, step));
    } else {
      var s := body[i];
      InnerCount(body, i);
      AcquiredReady(t, body, i, completed);
      AcquiredPending(filters, path, t, body, i);
      var t1 := Acquired(t, s.id, i);
      var c := t1.children[i];
      OpenReady(t1, body, i);
      OpensSelected(filters, |path|, t1, i);
      if completed || !CanOpen(c) {
        RunConserves(sched, filters, path, t1, body, i + 1, completed, step + 1);
        SkippedConserves(filters, path, t, t1, body, i, completed,
          RunSections(sched, path, t1, body, i + 1, completed, step + 1));
      } else {
        var open := c.(state := Executing);
        OpenFiltered(t1, filters, path, i);
        RunProgress(sched, path + [i], open, s.body, 0, false, step + 1);
        RunConserves(sched, filters, path + [i], open, s.body, 0, false, step + 1);
        var r := RunSections(sched, path + [i], open, s.body, 0, false, step + 1);
        LeafEnds(sched, path + [i], open, s.body, step + 1);
        EnteredConserves(filters, path + [i], c, s.body, r);
        LeftFiltered(t1, filters, path, i, r);
        var t2 := Left(t1, i, r);
        if r.threw {
          ThrownConserves(filters, path, t, t1, body, i, r);
        } else {
          LeftReady(t1, body, i, r);
          LeftState(t1, i, r);
          RunConserves(sched, filters, path, t2, body, i + 1, true, r.step);
          LeftConserves(filters, path, t, t1, body, i, r, RunSections(sched, path, t2, body, i + 1, true, r.step));
        }
      }
    }
  }

  // ---------- what completes ----------

  /** How a run of a body ends: normally with every section known, and none left to open if none was entered; with
      an exception from a section inside, its tracker cannot be complete. */
  ghost predicate Ends(t: Tracker, body: seq<Section>, completed: bool, r: Outcome) {
    && (!r.threw ==> |r.t.children| == |body|)
    && (!r.threw && !r.completed ==> forall j :: 0 <= j < |r.t.children| ==> !CanOpen(r.t.children[j]))
    && (r.completed && !completed ==> r.t.state != Executing)
    && (r.unfinished ==> !IsComplete(Closed(r.t)))
  }

  lemma {:induction false} RunEnds(
    sched: nat -> bool, path: Path, t: Tracker, body: seq<Section>, i: nat, completed: bool, step: nat)
    requires Ready(t, body, i, completed) && t.state in {Executing, ExecutingChildren}
    ensures Ends(t, body, completed, RunSections(sched, path, t, body, i, completed, step))
    decreases SectionCount(body), |body| - i
  {
    hide QuietChildren, Closed;
    if !sched(step) && i < |body| {
      var s := body[i];
      InnerCount(body, i);
      AcquiredReady(t, body, i, completed);
      var t1 := Acquired(t, s.id, i);
      var c := t1.children[i];
      if completed || !CanOpen(c) {
        RunEnds(sched, path, t1, body, i + 1, completed, step + 1);
      } else {
        var open := c.(state := Executing);
        OpenReady(t1, body, i);
        RunProgress(sched, path + [i], open, s.body, 0, false, step + 1);
        RunEnds(sched, path + [i], open, s.body, 0, false, step + 1);
        var r := RunSections(sched, path + [i], open, s.body, 0, false, step + 1);
        LeftReady(t1, body, i, r);
        if r.threw {
          LeftOpen(t1, body, i, r);
        } else {
          LeftState(t1, i, r);
          RunProgress(sched, path, Left(t1, i, r), body, i + 1, true, r.step);
          RunEnds(sched, path, Left(t1, i, r), body, i + 1, true, r.step);
        }
      }
    } else if i == |body| {
      assert |t.children| == |body| by { KnownChildren(t, body, i, completed); }
    }
  }

  lemma KnownChildren(t: Tracker, body: seq<Section>, i: nat, completed: bool)
    requires Ready(t, body, i, completed)
    ensures |t.children| <= |body|
  {
  }

  /** The tracker of a body in which a section was left by an exception stays incomplete. */
  lemma LeftOpen(t: Tracker, body: seq<Section>, i: nat, r: Outcome)
    requires i < |t.children| && r.threw && Ready(Left(t, i, r), body, i + 1, true)
    requires r.unfinished ==> !IsComplete(Closed(r.t))
    ensures Left(t, i, r).state != Executing && !IsComplete(Closed(Left(t, i, r)))
  {
    hide QuietChildren;
    var t2 := Left(t, i, r);
    var last := |t2.children| - 1;
    assert last == i || t2.children[last].state == NotStarted;
  }

  /** A body that is completed without having thrown itself has nothing pending. */
  lemma CompletesThoroughly(filters: seq<string>, path: Path, t: Tracker, body: seq<Section>, r: Outcome)
    requires Ends(t, body, false, r) && QuietChildren(r.t, body) && Filtered(r.t, filters, |path|)
    requires r.t.state in {Executing, ExecutingChildren, NeedsAnotherRun}
    requires !ThrewHere(r) && IsComplete(Closed(r.t))
    ensures Pending(filters, path, Closed(r.t), body, 0) == []
  {
    assert forall j :: 0 <= j < |r.t.children| ==> !CanOpen(r.t.children[j]);
    hide Pending, Filtered;
    StateOnly(r.t, Closed(r.t), filters, |path|);
    NothingOpens(filters, path, Closed(r.t), body, 0);
  }

  lemma {:induction false} NothingOpens(filters: seq<string>, path: Path, t: Tracker, body: seq<Section>, i: nat)
    requires i <= |body| == |t.children| && Filtered(t, filters, |path|)
    requires forall j :: 0 <= j < |body| ==> t.children[j].id == body[j].id && !CanOpen(t.children[j])
    ensures Pending(filters, path, t, body, i) == []
    decreases |body| - i
  {
    hide Filtered, CanOpen, Selected;
    if i < |body| {
      NothingOpens(filters, path, t, body, i + 1);
      OpensSelected(filters, |path|, t, i);
    }
  }

  /** Sections that passed have nothing pending, at any depth. */
  ghost predicate Thorough(filters: seq<string>, path: Path, t: Tracker, body: seq<Section>)
    decreases t
  {
    && (t.state == CompletedSuccessfully ==> Pending(filters, path, t, body, 0) == [])
    && ThoroughInside(filters, path, t, body)
  }

  ghost predicate ThoroughInside(filters: seq<string>, path: Path, t: Tracker, body: seq<Section>)
    decreases t, 0
  {
    forall i :: 0 <= i < |t.children| && i < |body| ==> Thorough(filters, path + [i], t.children[i], body[i].body)
  }

  /** What is known of a section that is entered, of its run and of what it leaves behind. */
  lemma SectionRuns(
    sched: nat -> bool, filters: seq<string>, path: Path, t: Tracker, body: seq<Section>, i: nat, step: nat)
    returns (open: Tracker, r: Outcome)
    requires i < |body| && i < |t.children| && CanOpen(t.children[i])
    requires Ready(t, body, i, false) && Filtered(t, filters, |path|)
    ensures open == t.children[i].(state := Executing)
    ensures r == RunSections(sched, path + [i], open, body[i].body, 0, false, step)
    ensures Ready(open, body[i].body, 0, false) && Filtered(open, filters, |path + [i]|)
    ensures QuietChildren(r.t, body[i].body) && Filtered(r.t, filters, |path + [i]|)
    ensures r.t.state in {Executing, ExecutingChildren, NeedsAnotherRun} && Ends(open, body[i].body, false, r)
    ensures Ready(Left(t, i, r), body, i + 1, true) && Filtered(Left(t, i, r), filters, |path|)
    ensures Left(t, i, r).children == t.children[i := Ended(r)]
    ensures !r.threw ==> Left(t, i, r).state == ExecutingChildren
  {
    hide QuietChildren, Filtered, Ends, RunSections, Left, Pending, LostFrom;
    var s := body[i];
    InnerCount(body, i);
    open := t.children[i].(state := Executing);
    r := RunSections(sched, path + [i], open, s.body, 0, false, step);
    OpenReady(t, body, i);
    OpenFiltered(t, filters, path, i);
    RunProgress(sched, path + [i], open, s.body, 0, false, step);
    RunConserves(sched, filters, path + [i], open, s.body, 0, false, step);
    RunEnds(sched, path + [i], open, s.body, 0, false, step);
    LeftReady(t, body, i, r);
    StateOnly(r.t, Ended(r), filters, |path + [i]|);
    LeftFiltered(t, filters, path, i, r);
    LeftState(t, i, r);
  }

  lemma {:induction false} RunThorough(
    sched: nat -> bool, filters: seq<string>, path: Path, t: Tracker, body: seq<Section>, i: nat, completed: bool,
    step: nat)
    requires Ready(t, body, i, completed) && t.state in {Executing, ExecutingChildren}
    requires Filtered(t, filters, |path|) && ThoroughInside(filters, path, t, body)
    ensures ThoroughInside(filters, path, RunSections(sched, path, t, body, i, completed, step).t, body)
    decreases SectionCount(body), |body| - i
  {
    hide QuietChildren, Untouched, Filtered, Pending, Closed, ThoroughInside, Ends, Left;
    if !sched(step) && i < |body| {
      var s := body[i];
      InnerCount(body, i);
      AcquiredReady(t, body, i, completed);
      AcquiredPending(filters, path, t, body, i);
      AcquiredThorough(filters, path, t, body, i);
      var t1 := Acquired(t, s.id, i);
      if completed || !CanOpen(t1.children[i]) {
        RunThorough(sched, filters, path, t1, body, i + 1, completed, step + 1);
      } else {
        var open, r := SectionRuns(sched, filters, path, t1, body, i, step + 1);
        OpenThorough(filters, path, t1, body, i);
        RunThorough(sched, filters, path + [i], open, s.body, 0, false, step + 1);
        EndedThorough(filters, path + [i], open, s.body, r);
        LeftThorough(filters, path, t1, Left(t1, i, r), body, i, Ended(r));
        if !r.threw { RunThorough(sched, filters, path, Left(t1, i, r), body, i + 1, true, r.step); }
      }
    }
  }

  lemma AcquiredThorough(filters: seq<string>, path: Path, t: Tracker, body: seq<Section>, i: nat)
    requires i < |body| && i <= |t.children| && ThoroughInside(filters, path, t, body)
    ensures ThoroughInside(filters, path, Acquired(t, body[i].id, i), body)
  {
    var t1 := Acquired(t, body[i].id, i);
    forall j | 0 <= j < |t1.children| && j < |body|
      ensures Thorough(filters, path + [j], t1.children[j], body[j].body)
    {
      if j < |t.children| { assert Thorough(filters, path + [j], t.children[j], body[j].body); }
    }
  }

  lemma OpenThorough(filters: seq<string>, path: Path, t: Tracker, body: seq<Section>, i: nat)
    requires i < |body| && i < |t.children| && ThoroughInside(filters, path, t, body)
    ensures ThoroughInside(filters, path + [i], t.children[i].(state := Executing), body[i].body)
  {
    assert Thorough(filters, path + [i], t.children[i], body[i].body);
    SameThorough(filters, path + [i], t.children[i], t.children[i].(state := Executing), body[i].body);
  }

  lemma LeftThorough(
    filters: seq<string>, path: Path, t: Tracker, u: Tracker, body: seq<Section>, i: nat, c: Tracker)
    requires i < |body| && i < |t.children| && ThoroughInside(filters, path, t, body)
    requires u.children == t.children[i := c] && Thorough(filters, path + [i], c, body[i].body)
    ensures ThoroughInside(filters, path, u, body)
  {
    forall j | 0 <= j < |u.children| && j < |body|
      ensures Thorough(filters, path + [j], u.children[j], body[j].body)
    {
      if j != i { assert Thorough(filters, path + [j], t.children[j], body[j].body); }
    }
  }

  lemma EndedThorough(filters: seq<string>, path: Path, open: Tracker, body: seq<Section>, r: Outcome)
    requires Ends(open, body, false, r) && QuietChildren(r.t, body) && Filtered(r.t, filters, |path|)
    requires r.t.state in {Executing, ExecutingChildren, NeedsAnotherRun} && ThoroughInside(filters, path, r.t, body)
    ensures Thorough(filters, path, Ended(r), body)
  {
    hide QuietChildren, Filtered, Pending, Ends;
    if !ThrewHere(r) && IsComplete(Closed(r.t)) {
      CompletesThoroughly(filters, path, open, body, r);
    }
    SameThorough(filters, path, r.t, Ended(r), body);
  }

  lemma SameThorough(filters: seq<string>, path: Path, t: Tracker, u: Tracker, body: seq<Section>)
    requires ThoroughInside(filters, path, t, body) && u.children == t.children
    ensures ThoroughInside(filters, path, u, body)
  {
  }

  // ---------- what an exception does ----------

  /** The section at p failed. */
  ghost predicate FailedAt(t: Tracker, p: Path)
    requires p != []
    decreases |p|
  {
    p[0] < |t.children| &&
    if |p| == 1 then t.children[p[0]].state == Failed else FailedAt(t.children[p[0]], p[1..])
  }

  lemma {:induction false} FailedIsComplete(t: Tracker, p: Path)
    requires p != [] && FailedAt(t, p)
    ensures CompleteAt(t, p)
    decreases |p|
  {
    if |p| > 1 { FailedIsComplete(t.children[p[0]], p[1..]); }
  }

  /** A section that fails in a run leaves none of the sections around it complete. */
  lemma {:induction false} FailureStaysOpen(
    sched: nat -> bool, filters: seq<string>, path: Path, t: Tracker, body: seq<Section>, i: nat, completed: bool,
    step: nat, p: Path)
    requires Ready(t, body, i, completed) && t.state in {Executing, ExecutingChildren}
    requires Filtered(t, filters, |path|) && p != [] && !CompleteAt(t, p)
    requires FailedAt(RunSections(sched, path, t, body, i, completed, step).t, p)
    ensures var r := RunSections(sched, path, t, body, i, completed, step);
      r.unfinished && NoneCompleteOn(r.t, p[..|p| - 1])
    decreases SectionCount(body), |body| - i
  {
    hide QuietChildren, Untouched, Filtered, Closed, Left, FailedAt, CompleteAt, NoneCompleteOn, Conserves;
    var all := RunSections(sched, path, t, body, i, completed, step);
    FailedIsComplete(all.t, p);
    if !sched(step) && i < |body| {
      var s := body[i];
      InnerCount(body, i);
      AcquiredReady(t, body, i, completed);
      AcquiredPending(filters, path, t, body, i);
      AcquiredComplete(t, s.id, i, p);
      var t1 := Acquired(t, s.id, i);
      if completed || !CanOpen(t1.children[i]) {
        FailureStaysOpen(sched, filters, path, t1, body, i + 1, completed, step + 1, p);
      } else {
        var open, r := SectionRuns(sched, filters, path, t1, body, i, step + 1);
        var t2 := Left(t1, i, r);
        if !r.threw { FailedBefore(sched, path, t2, body, i + 1, r.step, p); }
        NewlyFailed(t1, t2, i, r, p);
        if |p| > 1 { FailureStaysOpen(sched, filters, path + [i], open, s.body, 0, false, step + 1, p[1..]); }
        OuterOpen(t2, i, r, p);
      }
    }
  }

  lemma AcquiredComplete(t: Tracker, id: NameAndLocation, i: nat, p: Path)
    requires i <= |t.children| && p != []
    ensures CompleteAt(Acquired(t, id, i), p) == CompleteAt(t, p)
  {
  }

  /** In a completed cycle nothing more fails. */
  lemma {:induction false} FailedBefore(
    sched: nat -> bool, path: Path, t: Tracker, body: seq<Section>, i: nat, step: nat, p: Path)
    requires i <= |body| && i <= |t.children| && p != []
    requires FailedAt(RunSections(sched, path, t, body, i, true, step).t, p)
    ensures FailedAt(t, p)
    decreases |body| - i
  {
    if !sched(step) && i < |body| {
      FailedBefore(sched, path, Acquired(t, body[i].id, i), body, i + 1, step + 1, p);
    }
  }

  /** What failed in the run of the i-th section is that section or something inside it. */
  lemma NewlyFailed(t: Tracker, u: Tracker, i: nat, r: Outcome, p: Path)
    requires i < |t.children| && u.children == t.children[i := Ended(r)] && r.t.state != Failed
    requires p != [] && FailedAt(u, p) && !CompleteAt(t, p)
    ensures p[0] == i && (|p| == 1 ==> ThrewHere(r))
    ensures |p| > 1 ==> FailedAt(r.t, p[1..]) && !CompleteAt(t.children[i].(state := Executing), p[1..])
  {
    if p[0] != i {
      assert FailedAt(t, p);
      FailedIsComplete(t, p);
    }
  }

  lemma OuterOpen(t: Tracker, i: nat, r: Outcome, p: Path)
    requires p != [] && p[0] == i < |t.children| && t.children[i] == Ended(r)
    requires |p| > 1 ==>
      r.unfinished && !IsComplete(Closed(r.t)) && NoneCompleteOn(r.t, p[1..][..|p| - 2])
    ensures NoneCompleteOn(t, p[..|p| - 1])
  {
    var q := p[..|p| - 1];
    forall k | 0 < k <= |q| ensures !CompleteAt(t, q[..k]) {
      if k > 1 {
        assert q[..k] == p[..k] && p[..k][1..] == p[1..k];
        assert p[1..][..|p| - 2] == p[1..|p| - 1] && p[1..|p| - 1][..k - 1] == p[1..k];
        assert !CompleteAt(r.t, p[1..][..|p| - 2][..k - 1]);
      }
    }
  }

  /** If an exception left a section, some section failed. */
  lemma {:induction false} UnfinishedFails(
    sched: nat -> bool, path: Path, t: Tracker, body: seq<Section>, i: nat, completed: bool, step: nat)
    returns (p: Path)
    requires i <= |body| && i <= |t.children| && RunSections(sched, path, t, body, i, completed, step).unfinished
    ensures p != [] && FailedAt(RunSections(sched, path, t, body, i, completed, step).t, p) && !CompleteAt(t, p)
    decreases SectionCount(body), |body| - i
  {
    var s := body[i];
    InnerCount(body, i);
    var t1 := Acquired(t, s.id, i);
    var c := t1.children[i];
    if completed || !CanOpen(c) {
      p := UnfinishedFails(sched, path, t1, body, i + 1, completed, step + 1);
      AcquiredComplete(t, s.id, i, p);
    } else {
      var open := c.(state := Executing);
      var r := RunSections(sched, path + [i], open, s.body, 0, false, step + 1);
      if r.threw {
        if r.unfinished {
          var q := UnfinishedFails(sched, path + [i], open, s.body, 0, false, step + 1);
          p := [i] + q;
          assert p[1..] == q;
        } else {
          p := [i];
        }
        AcquiredComplete(t, s.id, i, p);
      } else {
        NothingUnfinished(sched, path, Left(t1, i, r), body, i + 1, r.step);
        assert false;
      }
    }
  }

  lemma {:induction false} NothingUnfinished(
    sched: nat -> bool, path: Path, t: Tracker, body: seq<Section>, i: nat, step: nat)
    requires i <= |body| && i <= |t.children|
    ensures !RunSections(sched, path, t, body, i, true, step).unfinished
    decreases |body| - i
  {
    if !sched(step) && i < |body| {
      NothingUnfinished(sched, path, Acquired(t, body[i].id, i), body, i + 1, step + 1);
    }
  }

  lemma SameNone(t: Tracker, u: Tracker, p: Path)
    requires NoneCompleteOn(t, p) && u.children == t.children
    ensures NoneCompleteOn(u, p)
  {
    forall k | 0 < k <= |p| ensures !CompleteAt(u, p[..k]) {
      assert !CompleteAt(t, p[..k]);
    }
  }

  /** A cycle in which a section fails completes neither the test case nor any section around the failed one, at any
      depth: all of them are run again. */
  lemma FailureRunsAgain(
    sched: nat -> bool, filters: seq<string>, t: Tracker, body: seq<Section>, step: nat, p: Path)
    requires Quiet(t, body) && CanOpen(t) && Filtered(t, filters, 0)
    requires p != [] && FailedAt(RunCycle(sched, t, body, step).t, p) && !CompleteAt(t, p)
    ensures var r := RunCycle(sched, t, body, step);
      r.threw && r.unfinished && !IsComplete(r.t) && NoneCompleteOn(r.t, p[..|p| - 1])
  {
    hide RunSections, QuietChildren, Filtered, CanOpen;
    var open := t.(state := Executing);
    var r := RunSections(sched, [], open, body, 0, false, step);
    SameChildren(t, body);
    OpenedReady(open, body);
    StateOnly(t, open, filters, 0);
    assert !CompleteAt(open, p);
    assert FailedAt(r.t, p);
    FailureStaysOpen(sched, filters, [], open, body, 0, false, step, p);
    RunEnds(sched, [], open, body, 0, false, step);
    SameNone(r.t, Closed(r.t), p[..|p| - 1]);
  }

  // ---------- order ----------

  /** a arises from s by leaving elements out. */
  ghost predicate InOrder(a: seq<Path>, s: seq<Path>)
    decreases |s|
  {
    a == [] || (s != [] && ((a[0] == s[0] && InOrder(a[1..], s[1..])) || InOrder(a, s[1..])))
  }

  lemma {:induction false} InOrderSelf(s: seq<Path>)
    ensures InOrder(s, s)
  {
    if s != [] { InOrderSelf(s[1..]); }
  }

  lemma {:induction false} InOrderTail(a: seq<Path>, s: seq<Path>)
    requires a != [] && InOrder(a, s)
    ensures InOrder(a[1..], s)
    decreases |s|
  {
    if !InOrder(a, s[1..]) { InOrderSkip(a[1..], s); } else { InOrderTail(a, s[1..]); }
  }

  lemma InOrderSkip(a: seq<Path>, s: seq<Path>)
    requires s != [] && InOrder(a, s[1..])
    ensures InOrder(a, s)
  {
  }

  /** Leaving out more. */
  lemma {:induction false} InOrderWithout(a: seq<Path>, x: seq<Path>, b: seq<Path>, s: seq<Path>)
    requires InOrder(a + x + b, s)
    ensures InOrder(a + b, s)
    decreases |x|, |s|
  {
    if x == [] {
      assert a + x + b == a + b;
    } else if a == [] {
      assert a + x + b == x + b && (x + b)[1..] == x[1..] + b && a + x[1..] + b == x[1..] + b;
      InOrderTail(x + b, s);
      InOrderWithout(a, x[1..], b, s);
    } else {
      assert (a + x + b)[1..] == a[1..] + x + b && (a + b)[1..] == a[1..] + b;
      if a[0] == s[0] && InOrder(a[1..] + x + b, s[1..]) {
        InOrderWithout(a[1..], x, b, s[1..]);
      } else {
        InOrderWithout(a, x, b, s[1..]);
      }
    }
  }

  /** Nothing left out: the same. */
  lemma {:induction false} InOrderLength(a: seq<Path>, s: seq<Path>)
    requires InOrder(a, s)
    ensures |a| <= |s| && (|a| == |s| ==> a == s)
    decreases |s|
  {
    if a != [] {
      if a[0] == s[0] && InOrder(a[1..], s[1..]) {
        InOrderLength(a[1..], s[1..]);
        assert a == [a[0]] + a[1..] && s == [s[0]] + s[1..];
      } else {
        InOrderLength(a, s[1..]);
      }
    }
  }

  ghost predicate Distinct(s: seq<Path>) { forall i, j :: 0 <= i < j < |s| ==> s[i] != s[j] }

  lemma {:induction false} InOrderDistinct(a: seq<Path>, s: seq<Path>)
    requires InOrder(a, s) && Distinct(s)
    ensures Distinct(a) && forall i :: 0 <= i < |a| ==> a[i] in s
    decreases |s|
  {
    if a != [] {
      assert Distinct(s[1..]);
      if a[0] == s[0] && InOrder(a[1..], s[1..]) {
        InOrderDistinct(a[1..], s[1..]);
        assert a == [a[0]] + a[1..];
      } else {
        InOrderDistinct(a, s[1..]);
      }
    }
  }

  /** No leaf is listed twice. */
  /** The paths all lead into the sections from i on of the body at path. */
  ghost predicate Within(s: seq<Path>, path: Path, i: nat) {
    forall k :: 0 <= k < |s| ==> |path| < |s[k]| && path <= s[k] && i <= s[k][|path|]
  }

  lemma {:induction false} LeavesDistinct(filters: seq<string>, path: Path, body: seq<Section>, i: nat)
    requires i <= |body|
    ensures Distinct(SelectedLeaves(filters, path, body, i)) && Within(SelectedLeaves(filters, path, body, i), path, i)
    decreases SectionCount(body), |body| - i
  {
    hide Distinct, Within, Selected;
    if i < |body| {
      InnerCount(body, i);
      var first := SelectedLeavesOf(filters, path + [i], body[i].body);
      var rest := SelectedLeaves(filters, path, body, i + 1);
      LeavesDistinct(filters, path, body, i + 1);
      if body[i].body == [] {
        OneInside(path, i);
      } else {
        LeavesDistinct(filters, path + [i], body[i].body, 0);
        AllInside(first, path, i);
      }
      InsideFirst(first, rest, path, i);
      InsideFirst([], rest, path, i);
    } else {
      assert Distinct([]) && Within([], path, i) by { NoneInside(path, i); }
    }
  }

  lemma NoneInside(path: Path, i: nat)
    ensures Distinct([]) && Within([], path, i)
  {
  }

  /** The leaves of section i of the body at path. */
  ghost predicate Inside(s: seq<Path>, path: Path, i: nat) {
    forall k :: 0 <= k < |s| ==> |path| < |s[k]| && path <= s[k] && s[k][|path|] == i
  }

  lemma OneInside(path: Path, i: nat)
    ensures Inside([path + [i]], path, i) && Distinct([path + [i]])
  {
  }

  lemma AllInside(s: seq<Path>, path: Path, i: nat)
    requires Within(s, path + [i], 0)
    ensures Inside(s, path, i)
  {
    forall k | 0 <= k < |s| ensures |path| < |s[k]| && path <= s[k] && s[k][|path|] == i {
      var inner := path + [i];
      assert s[k][..|inner|] == inner;
      assert s[k][..|path|] == inner[..|path|] == path;
    }
  }

  lemma InsideFirst(first: seq<Path>, rest: seq<Path>, path: Path, i: nat)
    requires (first == [] || (Inside(first, path, i) && Distinct(first))) && Within(rest, path, i + 1) && Distinct(rest)
    ensures Distinct(first + rest) && Within(first + rest, path, i)
  {
    var s := first + rest;
    forall k | 0 <= k < |s| ensures |path| < |s[k]| && path <= s[k] && i <= s[k][|path|] {
      assert s[k] == if k < |first| then first[k] else rest[k - |first|];
    }
  }

  // ---------- whole runs ----------

  /** The selected leaves a test case has still to run. */
  ghost function CasePending(filters: seq<string>, t: Tracker, body: seq<Section>): seq<Path> {
    if IsComplete(t) then [] else Pending(filters, [], t, body, 0)
  }

  /** The test case's tracker between cycles. */
  ghost predicate CaseReady(filters: seq<string>, t: Tracker, body: seq<Section>) {
    && Quiet(t, body) && t.state != Failed && (t.filters == [] || t.filters[0] == "")
    && Filtered(t, filters, 0) && ThoroughInside(filters, [], t, body)
  }

  lemma CaseConserves(sched: nat -> bool, filters: seq<string>, t: Tracker, body: seq<Section>, step: nat)
    requires CaseReady(filters, t, body) && !IsComplete(t)
    ensures var r := RunCycle(sched, t, body, step); var run := LeafPaths(r.log);
      && CaseReady(filters, r.t, body)
      && Drops(CasePending(filters, t, body), run, CasePending(filters, r.t, body))
      && |run| + |CasePending(filters, r.t, body)| + Lost(filters, [], r.t, body)
         == |CasePending(filters, t, body)| + Lost(filters, [], t, body)
      && (IsComplete(r.t) && !ThrewHere(r) ==> Pending(filters, [], r.t, body, 0) == [])
  {
    CycleProgress(sched, t, body, step);
    hide RunSections, Quiet, QuietChildren, Filtered, Pending, LostFrom, ThoroughInside, LeafPaths;
    var open := t.(state := Executing);
    var r := RunSections(sched, [], open, body, 0, false, step);
    CaseOpens(filters, t, body);
    RunProgress(sched, [], open, body, 0, false, step);
    RunConserves(sched, filters, [], open, body, 0, false, step);
    RunThorough(sched, filters, [], open, body, 0, false, step);
    RunEnds(sched, [], open, body, 0, false, step);
    SameBehind(filters, [], t, open, body, 0);
    SameBehind(filters, [], r.t, Closed(r.t), body, 0);
    StateOnly(r.t, Closed(r.t), filters, 0);
    SameThorough(filters, [], r.t, Closed(r.t), body);
    if IsComplete(Closed(r.t)) && !ThrewHere(r) { CompletesThoroughly(filters, [], open, body, r); }
  }

  lemma CaseOpens(filters: seq<string>, t: Tracker, body: seq<Section>)
    requires CaseReady(filters, t, body)
    ensures var open := t.(state := Executing);
      Ready(open, body, 0, false) && Filtered(open, filters, 0) && ThoroughInside(filters, [], open, body)
  {
    var open := t.(state := Executing);
    SameChildren(t, body);
    OpenedReady(open, body);
    StateOnly(t, open, filters, 0);
    SameThorough(filters, [], t, open, body);
  }

  lemma NewCase(filters: seq<string>, id: NameAndLocation, body: seq<Section>)
    ensures var t := NewTracker(id, RootFilters(filters));
      && CaseReady(filters, t, body)
      && CasePending(filters, t, body) == SelectedLeaves(filters, [], body, 0) && Lost(filters, [], t, body) == 0
  {
    NewPending(filters, [], NewTracker(id, RootFilters(filters)), body, 0);
  }

  /** The n-th round of runTest's loop. */
  ghost function Round(sched: nat -> bool, t: Tracker, body: seq<Section>, start: nat, n: nat): Outcome {
    var (u, step) := After(sched, t, body, start, n);
    RunCycle(sched, u, body, step)
  }

  /** For every schedule and filter list, after any number of rounds: what was run and what is pending are selected
      leaves in their order, and together with the lost ones they are all. */
  lemma {:induction false} RoundsConserve(
    sched: nat -> bool, filters: seq<string>, id: NameAndLocation, body: seq<Section>, start: nat, n: nat)
    ensures var t, leaves := NewTracker(id, RootFilters(filters)), SelectedLeaves(filters, [], body, 0);
      var u, run := After(sched, t, body, start, n).0, LeafPaths(AllEntered(sched, t, body, start, n));
      && CaseReady(filters, u, body)
      && InOrder(run + CasePending(filters, u, body), leaves)
      && |run| + |CasePending(filters, u, body)| + Lost(filters, [], u, body) == |leaves|
    decreases n
  {
    hide RunCycle, CaseReady, CasePending, Lost, LeafPaths, SelectedLeaves, InOrder, NewTracker;
    var t, leaves := NewTracker(id, RootFilters(filters)), SelectedLeaves(filters, [], body, 0);
    if n == 0 {
      NewCase(filters, id, body);
      NoLeafPaths();
      InOrderSelf(leaves);
      assert [] + leaves == leaves;
    } else {
      RoundsConserve(sched, filters, id, body, start, n - 1);
      var (u, step) := After(sched, t, body, start, n - 1);
      var before, entered := AllEntered(sched, t, body, start, n - 1), Entered(sched, t, body, start, n - 1);
      LeafPathsAppend(before, entered);
      if IsComplete(u) {
        CaseNotFailed(filters, u, body);
        NoLeafPaths();
        assert LeafPaths(before) + [] == LeafPaths(before);
      } else {
        CaseConserves(sched, filters, u, body, step);
        OneRound(LeafPaths(before), CasePending(filters, u, body), LeafPaths(entered),
          CasePending(filters, RunCycle(sched, u, body, step).t, body), leaves);
      }
    }
  }

  lemma CaseNotFailed(filters: seq<string>, t: Tracker, body: seq<Section>)
    requires CaseReady(filters, t, body)
    ensures t.state != Failed
  {
    hide Quiet, Filtered, ThoroughInside;
  }

  lemma OneRound(run: seq<Path>, before: seq<Path>, now: seq<Path>, after: seq<Path>, leaves: seq<Path>)
    requires InOrder(run + before, leaves) && Drops(before, now, after)
    ensures InOrder(run + now + after, leaves)
  {
    hide InOrder;
    var lost := before[|now|..|before| - |after|];
    assert before == now + lost + after;
    assert run + before == (run + now) + lost + after;
    InOrderWithout(run + now, lost, after, leaves);
  }

  // ---------- nothing is lost unless code outside the leaves throws ----------

  /** Of the sections that failed all are leaves. */
  ghost predicate OnlyLeavesFailed(t: Tracker, body: seq<Section>)
    decreases t
  {
    forall i :: 0 <= i < |t.children| && i < |body| ==>
      (t.children[i].state == Failed ==> body[i].body == []) && OnlyLeavesFailed(t.children[i], body[i].body)
  }

  /** In the first n rounds no exception came from the test case's own code, and none from a section's but a leaf's. */
  ghost predicate OnlyLeavesThrow(sched: nat -> bool, t: Tracker, body: seq<Section>, start: nat, n: nat) {
    && OnlyLeavesFailed(After(sched, t, body, start, n).0, body)
    && forall m | 0 <= m < n && !IsComplete(After(sched, t, body, start, m).0) ::
         body == [] || !ThrewHere(Round(sched, t, body, start, m))
  }

  lemma {:induction false} NoneLost(filters: seq<string>, path: Path, t: Tracker, body: seq<Section>, i: nat)
    requires i <= |body| && ThoroughInside(filters, path, t, body) && OnlyLeavesFailed(t, body)
    ensures LostFrom(filters, path, t, body, i) == 0
    decreases SectionCount(body), |body| - i
  {
    if i < |body| && i < |t.children| {
      InnerCount(body, i);
      var c := t.children[i];
      assert Thorough(filters, path + [i], c, body[i].body);
      NoneLost(filters, path + [i], c, body[i].body, 0);
      NoneLost(filters, path, t, body, i + 1);
    }
  }

  /** A test case that never threw itself has nothing pending when it is complete. */
  lemma {:induction false} CaseThorough(
    sched: nat -> bool, filters: seq<string>, id: NameAndLocation, body: seq<Section>, start: nat, n: nat)
    requires var t := NewTracker(id, RootFilters(filters));
      && IsComplete(After(sched, t, body, start, n).0)
      && forall m | 0 <= m < n && !IsComplete(After(sched, t, body, start, m).0) ::
           body == [] || !ThrewHere(Round(sched, t, body, start, m))
    ensures Pending(filters, [], After(sched, NewTracker(id, RootFilters(filters)), body, start, n).0, body, 0) == []
    decreases n
  {
    hide RunCycle, CaseReady, CasePending, Lost;
    var t := NewTracker(id, RootFilters(filters));
    if body != [] && n > 0 {
      hide Pending;
      var (u, step) := After(sched, t, body, start, n - 1);
      RoundsConserve(sched, filters, id, body, start, n - 1);
      if IsComplete(u) {
        CaseNotFailed(filters, u, body);
        CaseThorough(sched, filters, id, body, start, n - 1);
      } else {
        CaseConserves(sched, filters, u, body, step);
        assert !ThrewHere(Round(sched, t, body, start, n - 1));
      }
    }
  }

  /** Where nothing throws, nothing fails. */
  lemma {:induction false} CalmFailsNothing(
    sched: nat -> bool, path: Path, t: Tracker, body: seq<Section>, i: nat, completed: bool, step: nat)
    requires Calm(sched) && i <= |body| && i <= |t.children| && OnlyLeavesFailed(t, body) && t.state != Failed
    ensures var r := RunSections(sched, path, t, body, i, completed, step);
      !r.threw && OnlyLeavesFailed(r.t, body) && r.t.state != Failed
    decreases SectionCount(body), |body| - i
  {
    hide OnlyLeavesFailed, CanOpen;
    if i < |body| {
      var s := body[i];
      InnerCount(body, i);
      var t1 := Acquired(t, s.id, i);
      var c := t1.children[i];
      OnlyLeavesInside(t, t1, body, i, c, c);
      if completed || !CanOpen(c) {
        CalmFailsNothing(sched, path, t1, body, i + 1, completed, step + 1);
      } else {
        var open := c.(state := Executing);
        CalmFailsNothing(sched, path + [i], open, s.body, 0, false, step + 1);
        var r := RunSections(sched, path + [i], open, s.body, 0, false, step + 1);
        OnlyLeavesInside(t1, Left(t1, i, r), body, i, Closed(r.t), r.t);
        CalmFailsNothing(sched, path, Left(t1, i, r), body, i + 1, true, r.step);
      }
    }
  }

  /** The children are the same but for the i-th, which did not fail in this run. */
  lemma OnlyLeavesInside(t: Tracker, u: Tracker, body: seq<Section>, i: nat, c: Tracker, d: Tracker)
    requires i < |body| && i < |u.children| && OnlyLeavesFailed(t, body) && u.children[i] == c
    requires i < |t.children| ==> u.children == t.children[i := c]
    requires i >= |t.children| ==> u.children == t.children + [c] && c.children == []
    requires (i < |t.children| && c == t.children[i]) || c.state != Failed
    requires c.children == d.children
    requires (i < |t.children| && c == t.children[i]) || c.children == [] || OnlyLeavesFailed(d, body[i].body)
    ensures OnlyLeavesFailed(u, body)
    ensures OnlyLeavesFailed(c.(state := Executing), body[i].body)
  {
    forall j | 0 <= j < |u.children| && j < |body|
      ensures (u.children[j].state == Failed ==> body[j].body == []) && OnlyLeavesFailed(u.children[j], body[j].body)
    {
      assert j != i ==> u.children[j] == t.children[j];
    }
  }

  lemma {:induction false} CalmRounds(sched: nat -> bool, t: Tracker, body: seq<Section>, start: nat, n: nat)
    requires Calm(sched) && t.children == []
    ensures OnlyLeavesThrow(sched, t, body, start, n)
    decreases n
  {
    hide RunSections;
    if n > 0 {
      CalmRounds(sched, t, body, start, n - 1);
      var (u, step) := After(sched, t, body, start, n - 1);
      assert OnlyLeavesFailed(u.(state := Executing), body);
      CalmFailsNothing(sched, [], u.(state := Executing), body, 0, false, step);
    }
  }

  /** When a test case is complete, the leaves it ran are selected ones in their order, each at most once, for every
      schedule and filter list; they are all of them exactly if none was lost, and none is lost while nothing but the
      blocks of leaves throws. */
  lemma RunsSelected(
    sched: nat -> bool, filters: seq<string>, id: NameAndLocation, body: seq<Section>, start: nat, n: nat)
    requires IsComplete(After(sched, NewTracker(id, RootFilters(filters)), body, start, n).0)
    ensures var t, leaves := NewTracker(id, RootFilters(filters)), SelectedLeaves(filters, [], body, 0);
      var u, run := After(sched, t, body, start, n).0, LeafPaths(AllEntered(sched, t, body, start, n));
      && InOrder(run, leaves) && Distinct(run)
      && (run == leaves <==> Lost(filters, [], u, body) == 0)
      && (OnlyLeavesThrow(sched, t, body, start, n) || Calm(sched) ==> run == leaves)
  {
    if Calm(sched) { CalmRounds(sched, NewTracker(id, RootFilters(filters)), body, start, n); }
    hide RunCycle, After, AllEntered, LeafPaths, SelectedLeaves, InOrder, Distinct, Pending, LostFrom, NewTracker;
    var t, leaves := NewTracker(id, RootFilters(filters)), SelectedLeaves(filters, [], body, 0);
    var u, run := After(sched, t, body, start, n).0, LeafPaths(AllEntered(sched, t, body, start, n));
    RoundsConserve(sched, filters, id, body, start, n);
    assert run + [] == run;
    LeavesDistinct(filters, [], body, 0);
    InOrderDistinct(run, leaves);
    InOrderLength(run, leaves);
    if OnlyLeavesThrow(sched, t, body, start, n) {
      CaseThorough(sched, filters, id, body, start, n);
      NoneLost(filters, [], u, body, 0);
    }
  }

  /** A leaf can be lost: of two sections the second is never entered when the test case itself throws between them,
      although the test case completes. */
  lemma LeafLost(id: NameAndLocation, a: NameAndLocation, b: NameAndLocation)
    ensures var body := [Section(a, []), Section(b, [])];
      var r := RunCycle(n => n == 2, NewTracker(id, []), body, 0);
      && r.t.state == CompletedSuccessfully && r.log == [Visit([0], true)]
      && Lost([], [], r.t, body) == 1 && SelectedLeaves([], [], body, 0) == [[0], [1]]
  {
    var sched := n => n == 2;
    var none: Path := [];
    assert none + [0] == [0];
    var body := [Section(a, []), Section(b, [])];
    var open := NewTracker(id, []).(state := Executing);
    var t1 := Acquired(open, a, 0);
    var c := t1.children[0].(state := Executing);
    var r := RunSections(sched, [] + [0], c, [], 0, false, 1);
    assert r == Outcome(c, false, false, false, [], 2);
    var t2 := Left(t1, 0, r);
    var rest := RunSections(sched, [], t2, body, 1, true, 2);
    assert rest == Outcome(t2, true, true, false, [], 3);
    var all := RunSections(sched, [], open, body, 0, false, 0);
    assert all.t == t2 && all.log == [Visit([0], true)];
    TwoLeaves(a, b, Closed(t2));
  }

  lemma TwoLeaves(a: NameAndLocation, b: NameAndLocation, t: Tracker)
    requires |t.children| == 1 && t.children[0].state == CompletedSuccessfully && t.children[0].children == []
    ensures var body := [Section(a, []), Section(b, [])];
      && SelectedLeaves([], [], body, 0) == [[0], [1]] && Pending([], [], t, body, 0) == [[1]]
      && LostFrom([], [], t, body, 0) == 0
  {
    var body := [Section(a, []), Section(b, [])];
    var none: Path := [];
    assert none + [0] == [0] && none + [1] == [1];
    assert SelectedLeaves([], [], body, 2) == [] && Pending([], [], t, body, 2) == [];
    assert SelectedLeaves([], [], body, 1) == [[1]] && Pending([], [], t, body, 1) == [[1]];
    assert LostFrom([], [], t, body, 1) == 0;
    assert Lost([], [0], t.children[0], []) == 0;
  }
}
