/** Catch's section trackers. A test body is run again and again; its trackers remember what has been
    done, each cycle opening one chain of sections, until the test case completes. This module says
    what one cycle does to the tracker tree, for every schedule of exceptions and every filter.
    CatchRun proves the run context's methods equal to it. */
module CatchTracker {

  datatype NameAndLocation = NameAndLocation(name: string, location: nat)

  /** TrackerBase::CycleState */
  datatype RunState = NotStarted | Executing | ExecutingChildren | NeedsAnotherRun | CompletedSuccessfully | Failed

  datatype Tracker = Tracker(id: NameAndLocation, state: RunState, filters: seq<string>, children: seq<Tracker>)

  /** A section of a test body: its nested sections, in the order the body reaches them. */
  datatype Section = Section(id: NameAndLocation, body: seq<Section>)

  /** The number of sections in a body, nested ones included. */
  function SectionCount(body: seq<Section>): nat
    decreases body
  {
    if body == [] then 0 else SizeOf(body[0]) + SectionCount(body[1..])
  }

  function SizeOf(s: Section): nat
    decreases s
  {
    1 + SectionCount(s.body)
  }

  lemma {:induction false} InnerCount(body: seq<Section>, i: nat)
    requires i < |body|
    ensures SectionCount(body[i].body) < SectionCount(body)
  {
    if i > 0 { InnerCount(body[1..], i - 1); }
  }

  /** The position of a section in the test body. */
  type Path = seq<nat>

  /** A section that was entered, and whether it is a leaf. */
  datatype Visit = Visit(path: Path, leaf: bool)

  predicate IsComplete(t: Tracker) { t.state == CompletedSuccessfully || t.state == Failed }

  predicate IsOpen(t: Tracker) { t.state != NotStarted && !IsComplete(t) }

  /** addNextFilters */
  function NextFilters(filters: seq<string>): seq<string> {
    if |filters| > 1 then filters[1..] else []
  }

  /** addInitialFilters on the root */
  function RootFilters(filters: seq<string>): seq<string> {
    if filters == [] then [] else ["", ""] + filters
  }

  function NewTracker(id: NameAndLocation, filters: seq<string>): Tracker {
    Tracker(id, NotStarted, NextFilters(filters), [])
  }

  /** The condition of tryOpen. */
  predicate CanOpen(t: Tracker) {
    !IsComplete(t) && (t.filters == [] || t.filters[0] == "" || t.filters[0] == t.id.name)
  }

  /** close(), as far as the tracker itself goes. */
  function Closed(t: Tracker): Tracker {
    match t.state
    case Executing => t.(state := CompletedSuccessfully)
    case ExecutingChildren =>
      if t.children == [] || IsComplete(t.children[|t.children| - 1]) then t.(state := CompletedSuccessfully) else t
    case _ => t
  }

  /** t once the section body[i] was looked up: findChild, else addChild. */
  function Acquired(t: Tracker, id: NameAndLocation, i: nat): (r: Tracker)
    requires i <= |t.children|
    ensures i < |r.children|
  {
    if i < |t.children| then t else t.(children := t.children + [NewTracker(id, t.filters)])
  }

  /** What running (the rest of) a body did: the tracker of that body, whether some section was closed
      in this cycle, whether an exception is on its way out, whether it already left a section, the
      sections entered, and the time. */
  datatype Outcome = Outcome(t: Tracker, completed: bool, threw: bool, unfinished: bool, log: seq<Visit>, step: nat)

  /** Runs the body of the open tracker t from its i-th section on. The schedule says at which moments
      the code between sections throws. */
  function RunSections(
    sched: nat -> bool, path: Path, t: Tracker, body: seq<Section>, i: nat, completed: bool, step: nat): (r: Outcome)
    requires i <= |body| && i <= |t.children|
    ensures r.unfinished ==> r.threw && r.completed
    decreases SectionCount(body), |body| - i
  {
    if sched(step) then Outcome(t, completed, true, false, [], step + 1)
    else if i == |body| then Outcome(t, completed, false, false, [], step + 1)
    else
      var s := body[i];
      InnerCount(body, i);
      var t1 := Acquired(t, s.id, i);
      var c := t1.children[i];
      if completed || !CanOpen(c) then RunSections(sched, path, t1, body, i + 1, completed, step + 1)
      else
        var r := RunSections(sched, path + [i], c.(state := Executing), s.body, 0, false, step + 1);
        var t2 := Left(t1, i, r);
        var log := [Visit(path + [i], s.body == [])] + r.log;
        if r.threw then Outcome(t2, true, true, true, log, r.step)
        else
          var r2 := RunSections(sched, path, t2, body, i + 1, true, r.step);
          r2.(log := log + r2.log)
  }

  /** The exception left the section without having left one inside it. */
  predicate ThrewHere(r: Outcome) { r.threw && !r.unfinished }

  /** t after its i-th child was run as r and left, by close() or, where the exception was thrown, by
      fail(). */
  function Left(t: Tracker, i: nat, r: Outcome): Tracker
    requires i < |t.children|
  {
    if ThrewHere(r) then
      t.(children := t.children[i := r.t.(state := Failed)], state := NeedsAnotherRun)
    else
      t.(children := t.children[i := Closed(r.t)], state := ExecutingChildren)
  }

  /** One round of runTest's loop, on the test case's tracker. */
  function RunCycle(sched: nat -> bool, t: Tracker, body: seq<Section>, step: nat): Outcome {
    var r := RunSections(sched, [], t.(state := Executing), body, 0, false, step);
    r.(t := Closed(r.t))
  }

  // ---------- trackers between cycles ----------

  /** t can be the tracker of this body between two cycles. */
  ghost predicate Quiet(t: Tracker, body: seq<Section>)
    decreases t
  {
    && t.state != Executing && QuietChildren(t, body)
    && (t.state == NotStarted ==> t.children == [])
    && (IsOpen(t) ==> CanOpen(t))
  }

  /** The children are the first sections of the body, and none behind one that may still be opened
      has been started. */
  ghost predicate QuietChildren(t: Tracker, body: seq<Section>)
    decreases t, 0
  {
    && |t.children| <= |body|
    && (forall i :: 0 <= i < |t.children| ==> t.children[i].id == body[i].id && Quiet(t.children[i], body[i].body))
    && (forall i, j :: 0 <= i < j < |t.children| && CanOpen(t.children[i]) ==> t.children[j].state == NotStarted)
  }

  /** No child from i on has been started. */
  ghost predicate Untouched(t: Tracker, i: nat) {
    forall j :: i <= j < |t.children| ==> t.children[j].state == NotStarted
  }

  /** What a run of (the rest of) a body may assume: in a cycle that already completed, nothing ahead
      has been started; in one that did not, nothing behind can be opened any more. */
  ghost predicate Ready(t: Tracker, body: seq<Section>, i: nat, completed: bool) {
    && i <= |body| && i <= |t.children| && QuietChildren(t, body)
    && (if completed then Untouched(t, i) else forall j :: 0 <= j < i ==> !CanOpen(t.children[j]))
  }

  lemma AcquiredReady(t: Tracker, body: seq<Section>, i: nat, completed: bool)
    requires Ready(t, body, i, completed) && i < |body|
    ensures var t1 := Acquired(t, body[i].id, i);
      && Ready(t1, body, i, completed)
      && DoneAll(t1.children) == DoneAll(t.children)
      && (completed || !CanOpen(t1.children[i]) ==> Ready(t1, body, i + 1, completed))
  {
    if i == |t.children| { DoneAppend(t.children, NewTracker(body[i].id, t.filters)); }
  }

  /** A section left behind: its tracker is quiet again and nothing ahead has been started. */
  lemma LeftReady(t: Tracker, body: seq<Section>, i: nat, r: Outcome)
    requires Ready(t, body, i, false) && i < |body| && i < |t.children| && CanOpen(t.children[i])
    requires QuietChildren(r.t, body[i].body) && r.t.id == t.children[i].id && r.t.filters == t.children[i].filters
    requires r.t.state in {Executing, ExecutingChildren, NeedsAnotherRun}
    ensures Ready(Left(t, i, r), body, i + 1, true)
  {
  }

  lemma OpenedReady(t: Tracker, body: seq<Section>)
    requires QuietChildren(t, body)
    ensures Ready(t, body, 0, false)
  {
    hide QuietChildren;
  }

  lemma LeftState(t: Tracker, i: nat, r: Outcome)
    requires i < |t.children|
    ensures !r.threw ==> Left(t, i, r).state == ExecutingChildren
  {
  }

  // ---------- progress ----------

  /** The number of completed trackers in a tracker's tree. */
  ghost function Done(t: Tracker): nat
    decreases t
  {
    (if IsComplete(t) then 1 else 0) + DoneAll(t.children)
  }

  ghost function DoneAll(ts: seq<Tracker>): nat
    decreases ts
  {
    if ts == [] then 0 else Done(ts[0]) + DoneAll(ts[1..])
  }

  lemma {:induction false} DoneUpdate(ts: seq<Tracker>, i: nat, x: Tracker)
    requires i < |ts|
    ensures DoneAll(ts[i := x]) + Done(ts[i]) == DoneAll(ts) + Done(x)
  {
    if i == 0 {
      assert ts[0 := x][1..] == ts[1..];
    } else {
      assert ts[i := x][1..] == ts[1..][i - 1 := x];
      DoneUpdate(ts[1..], i - 1, x);
    }
  }

  lemma {:induction false} DoneAppend(ts: seq<Tracker>, x: Tracker)
    ensures DoneAll(ts + [x]) == DoneAll(ts) + Done(x)
  {
    if ts == [] {
      assert ts + [x] == [x];
    } else {
      assert (ts + [x])[1..] == ts[1..] + [x];
      DoneAppend(ts[1..], x);
    }
  }

  /** There is at most one completed tracker for each section. */
  lemma {:induction false} DoneBound(t: Tracker, body: seq<Section>)
    requires QuietChildren(t, body)
    ensures Done(t) <= 1 + SectionCount(body)
    decreases t, 1
  {
    DoneAllBound(t, 0, body);
  }

  lemma {:induction false} DoneAllBound(t: Tracker, i: nat, body: seq<Section>)
    requires QuietChildren(t, body) && i <= |t.children|
    ensures DoneAll(t.children[i..]) <= SectionCount(body[i..])
    decreases t, 0, |t.children| - i
  {
    if i < |t.children| {
      DoneBound(t.children[i], body[i].body);
      DoneAllBound(t, i + 1, body);
      assert t.children[i..][1..] == t.children[i + 1..];
      assert body[i..][1..] == body[i + 1..];
    } else {
      assert t.children[i..] == [];
    }
    assert i == 0 ==> t.children[i..] == t.children && body[i..] == body;
  }

  /** A run leaves the trackers quiet; if it closed a section, more trackers are complete than before,
      otherwise nothing was started. */
  lemma {:induction false} RunProgress(
    sched: nat -> bool, path: Path, t: Tracker, body: seq<Section>, i: nat, completed: bool, step: nat)
    requires Ready(t, body, i, completed) && t.state in {Executing, ExecutingChildren}
    ensures var r := RunSections(sched, path, t, body, i, completed, step);
      && QuietChildren(r.t, body) && r.t.id == t.id && r.t.filters == t.filters
      && r.t.state in {Executing, ExecutingChildren, NeedsAnotherRun}
      && (r.completed == completed ==>
            DoneAll(r.t.children) == DoneAll(t.children) && r.t.state == t.state && r.log == [])
      && (r.completed && !completed ==> DoneAll(r.t.children) > DoneAll(t.children))
      && (completed ==> r.completed && |r.t.children| >= |t.children|)
    decreases SectionCount(body), |body| - i
  {
    hide QuietChildren, Untouched, DoneAll;
    if !sched(step) && i < |body| {
      var s := body[i];
      InnerCount(body, i);
      AcquiredReady(t, body, i, completed);
      var t1 := Acquired(t, s.id, i);
      var c := t1.children[i];
      if completed || !CanOpen(c) {
        RunProgress(sched, path, t1, body, i + 1, completed, step + 1);
      } else {
        var open := c.(state := Executing);
        OpenReady(t1, body, i);
        RunProgress(sched, path + [i], open, s.body, 0, false, step + 1);
        var r := RunSections(sched, path + [i], open, s.body, 0, false, step + 1);
        LeftReady(t1, body, i, r);
        LeftDone(t1, i, r);
        if !r.threw { RunProgress(sched, path, Left(t1, i, r), body, i + 1, true, r.step); }
        else { ReadyQuiet(Left(t1, i, r), body, i + 1); }
      }
    }
  }

  lemma ReadyQuiet(t: Tracker, body: seq<Section>, i: nat)
    requires Ready(t, body, i, true)
    ensures QuietChildren(t, body)
  {
  }

  lemma OpenReady(t: Tracker, body: seq<Section>, i: nat)
    requires QuietChildren(t, body) && i < |t.children|
    ensures i < |body| && t.children[i].id == body[i].id
    ensures Ready(t.children[i].(state := Executing), body[i].body, 0, false)
  {
    hide QuietChildren;
    ChildQuiet(t, body, i);
    SameChildren(t.children[i], body[i].body);
  }

  lemma ChildQuiet(t: Tracker, body: seq<Section>, i: nat)
    requires QuietChildren(t, body) && i < |t.children|
    ensures i < |body| && t.children[i].id == body[i].id && QuietChildren(t.children[i], body[i].body)
  {
    assert Quiet(t.children[i], body[i].body);
  }

  lemma SameChildren(t: Tracker, body: seq<Section>)
    requires QuietChildren(t, body)
    ensures QuietChildren(t.(state := Executing), body)
  {
  }

  lemma LeftDone(t: Tracker, i: nat, r: Outcome)
    requires i < |t.children| && !IsComplete(t.children[i])
    requires r.unfinished ==> r.completed
    requires r.t.state in {Executing, ExecutingChildren, NeedsAnotherRun}
    requires if r.completed then DoneAll(r.t.children) > DoneAll(t.children[i].children)
             else DoneAll(r.t.children) == DoneAll(t.children[i].children) && r.t.state == Executing
    ensures DoneAll(Left(t, i, r).children) > DoneAll(t.children)
  {
    DoneUpdate(t.children, i, Left(t, i, r).children[i]);
  }

  /** Every cycle completes at least one more tracker, whatever throws and whatever is filtered, and
      leaves the test case's tracker quiet and not failed. */
  lemma CycleProgress(sched: nat -> bool, t: Tracker, body: seq<Section>, step: nat)
    requires Quiet(t, body) && CanOpen(t)
    ensures var r := RunCycle(sched, t, body, step);
      && Quiet(r.t, body) && r.t.state != Failed && r.t.id == t.id && r.t.filters == t.filters
      && Done(r.t) > Done(t)
      && Done(r.t) <= 1 + SectionCount(body)
  {
    hide RunSections;
    var open := t.(state := Executing);
    assert QuietChildren(open, body);
    RunProgress(sched, [], open, body, 0, false, step);
    var r := RunSections(sched, [], open, body, 0, false, step);
    assert QuietChildren(Closed(r.t), body);
    DoneBound(Closed(r.t), body);
  }

  // ---------- complete is for ever ----------

  /** The section at p, seen from the body of t, is complete. */
  ghost predicate CompleteAt(t: Tracker, p: Path)
    requires p != []
    decreases |p|
  {
    p[0] < |t.children| &&
    if |p| == 1 then IsComplete(t.children[p[0]]) else CompleteAt(t.children[p[0]], p[1..])
  }

  /** Nothing on the way to p, nor p itself, is complete. */
  ghost predicate NoneCompleteOn(t: Tracker, p: Path) {
    forall k :: 0 < k <= |p| ==> !CompleteAt(t, p[..k])
  }

  lemma {:induction false} CompleteStays(
    sched: nat -> bool, path: Path, t: Tracker, body: seq<Section>, i: nat, completed: bool, step: nat, p: Path)
    requires i <= |body| && i <= |t.children| && p != [] && CompleteAt(t, p)
    ensures CompleteAt(RunSections(sched, path, t, body, i, completed, step).t, p)
    decreases SectionCount(body), |body| - i
  {
    if !sched(step) && i < |body| {
      var s := body[i];
      InnerCount(body, i);
      var t1 := Acquired(t, s.id, i);
      assert CompleteAt(t1, p);
      var c := t1.children[i];
      if completed || !CanOpen(c) {
        CompleteStays(sched, path, t1, body, i + 1, completed, step + 1, p);
      } else {
        var open := c.(state := Executing);
        if p[0] == i { CompleteStays(sched, path + [i], open, s.body, 0, false, step + 1, p[1..]); }
        var r := RunSections(sched, path + [i], open, s.body, 0, false, step + 1);
        assert CompleteAt(Left(t1, i, r), p);
        if !r.threw { CompleteStays(sched, path, Left(t1, i, r), body, i + 1, true, r.step, p); }
      }
    }
  }

  /** In a completed cycle nothing more is entered. */
  lemma {:induction false} NothingEntered(
    sched: nat -> bool, path: Path, t: Tracker, body: seq<Section>, i: nat, step: nat)
    requires i <= |body| && i <= |t.children|
    ensures RunSections(sched, path, t, body, i, true, step).log == []
    decreases |body| - i
  {
    if !sched(step) && i < |body| {
      NothingEntered(sched, path, Acquired(t, body[i].id, i), body, i + 1, step + 1);
    }
  }

  /** A section is only entered while neither it nor a section around it is complete. */
  lemma {:induction false} EnteredIncomplete(
    sched: nat -> bool, path: Path, t: Tracker, body: seq<Section>, i: nat, completed: bool, step: nat, v: Visit)
    returns (p: Path)
    requires i <= |body| && i <= |t.children|
    requires v in RunSections(sched, path, t, body, i, completed, step).log
    ensures v.path == path + p && p != [] && NoneCompleteOn(t, p)
    decreases SectionCount(body), |body| - i
  {
    var s := body[i];
    InnerCount(body, i);
    var t1 := Acquired(t, s.id, i);
    var c := t1.children[i];
    if completed || !CanOpen(c) {
      p := EnteredIncomplete(sched, path, t1, body, i + 1, completed, step + 1, v);
      NoneCompleteBefore(t, s.id, i, p);
    } else {
      var open := c.(state := Executing);
      var r := RunSections(sched, path + [i], open, s.body, 0, false, step + 1);
      if !r.threw { NothingEntered(sched, path, Left(t1, i, r), body, i + 1, r.step); }
      if v == Visit(path + [i], s.body == []) {
        p := [i];
      } else {
        var q := EnteredIncomplete(sched, path + [i], open, s.body, 0, false, step + 1, v);
        p := [i] + q;
        assert path + [i] + q == path + p;
        NoneCompleteInside(t1, i, q);
      }
      NoneCompleteBefore(t, s.id, i, p);
    }
  }

  lemma NoneCompleteInside(t: Tracker, i: nat, q: Path)
    requires i < |t.children| && !IsComplete(t.children[i]) && NoneCompleteOn(t.children[i].(state := Executing), q)
    ensures NoneCompleteOn(t, [i] + q)
  {
    var p := [i] + q;
    forall k | 0 < k <= |p| ensures !CompleteAt(t, p[..k]) {
      if k > 1 {
        assert p[..k][1..] == q[..k - 1];
        assert !CompleteAt(t.children[i].(state := Executing), q[..k - 1]);
      }
    }
  }

  lemma NoneCompleteBefore(t: Tracker, id: NameAndLocation, i: nat, p: Path)
    requires i <= |t.children| && NoneCompleteOn(Acquired(t, id, i), p)
    ensures NoneCompleteOn(t, p)
  {
    var t1 := Acquired(t, id, i);
    forall k | 0 < k <= |p| ensures !CompleteAt(t, p[..k]) {
      assert !CompleteAt(t1, p[..k]);
    }
  }

  // ---------- whole runs ----------

  /** The test case's tracker and the time after n rounds of runTest's loop, which stops at success. */
  ghost function After(sched: nat -> bool, t: Tracker, body: seq<Section>, start: nat, n: nat): (Tracker, nat)
    decreases n
  {
    if n == 0 then (t, start)
    else
      var (u, step) := After(sched, t, body, start, n - 1);
      if u.state == CompletedSuccessfully then (u, step)
      else var r := RunCycle(sched, u, body, step); (r.t, r.step)
  }

  /** The sections entered in round n. */
  ghost function Entered(sched: nat -> bool, t: Tracker, body: seq<Section>, start: nat, n: nat): seq<Visit> {
    var (u, step) := After(sched, t, body, start, n);
    if u.state == CompletedSuccessfully then [] else RunCycle(sched, u, body, step).log
  }

  lemma {:induction false} StaysCompleteAfter(
    sched: nat -> bool, t: Tracker, body: seq<Section>, start: nat, m: nat, n: nat, p: Path)
    requires m <= n && p != [] && CompleteAt(After(sched, t, body, start, m).0, p)
    ensures CompleteAt(After(sched, t, body, start, n).0, p)
    decreases n
  {
    hide RunSections;
    if m < n {
      StaysCompleteAfter(sched, t, body, start, m, n - 1, p);
      var (u, step) := After(sched, t, body, start, n - 1);
      if u.state != CompletedSuccessfully {
        CompleteStays(sched, [], u.(state := Executing), body, 0, false, step, p);
      }
    }
  }

  /** Over a whole run, a section whose tracker is complete, be it failed or passed, is never entered
      again, nor is any section inside it. */
  lemma NeverReentered(
    sched: nat -> bool, t: Tracker, body: seq<Section>, start: nat, m: nat, n: nat, p: Path, v: Visit)
    requires m <= n && p != [] && CompleteAt(After(sched, t, body, start, m).0, p)
    requires v in Entered(sched, t, body, start, n)
    ensures !(p <= v.path)
  {
    hide RunSections;
    StaysCompleteAfter(sched, t, body, start, m, n, p);
    var (u, step) := After(sched, t, body, start, n);
    var open := u.(state := Executing);
    var q := EnteredIncomplete(sched, [], open, body, 0, false, step, v);
    assert v.path == q;
    if p <= q {
      assert q[..|p|] == p;
      assert CompleteAt(open, p);
    }
  }
}
