/** Without exceptions and filters, the rounds of runTest's loop run the leaf sections of the test
    body one by one: each exactly once, in depth-first order, and no round more. */
module CatchOnce {
  import opened CatchTracker

  // ---------- leaves, and leaves still to run ----------

  /** The leaves of a body from its i-th section on, depth first. */
  ghost function Leaves(path: Path, body: seq<Section>, i: nat): seq<Path>
    requires i <= |body|
    decreases SectionCount(body), |body| - i
  {
    if i == |body| then []
    else
      InnerCount(body, i);
      LeavesOf(path + [i], body[i].body) + Leaves(path, body, i + 1)
  }

  /** The leaves of a section with this body. */
  ghost function LeavesOf(path: Path, body: seq<Section>): seq<Path>
    decreases SectionCount(body), |body| + 1
  {
    if body == [] then [path] else Leaves(path, body, 0)
  }

  /** The leaves not yet run, according to the trackers. */
  ghost function Remaining(path: Path, t: Tracker, body: seq<Section>, i: nat): seq<Path>
    requires i <= |body|
    decreases SectionCount(body), |body| - i
  {
    if i == |body| then []
    else
      InnerCount(body, i);
      (if i < |t.children| then RemainingOf(path + [i], t.children[i], body[i].body)
       else LeavesOf(path + [i], body[i].body)) + Remaining(path, t, body, i + 1)
  }

  ghost function RemainingOf(path: Path, t: Tracker, body: seq<Section>): seq<Path>
    decreases SectionCount(body), |body| + 1
  {
    if IsComplete(t) then [] else if body == [] then [path] else Remaining(path, t, body, 0)
  }

  /** The leaves among the sections entered. */
  function LeafPaths(log: seq<Visit>): seq<Path> {
    if log == [] then [] else (if log[0].leaf then [log[0].path] else []) + LeafPaths(log[1..])
  }

  lemma {:induction false} LeafPathsAppend(a: seq<Visit>, b: seq<Visit>)
    ensures LeafPaths(a + b) == LeafPaths(a) + LeafPaths(b)
  {
    if a == [] {
      assert a + b == b;
    } else {
      assert (a + b)[1..] == a[1..] + b;
      LeafPathsAppend(a[1..], b);
    }
  }

  // ---------- trackers of an undisturbed run ----------

  /** t can be the tracker of this body between two undisturbed cycles. */
  ghost predicate Tidy(t: Tracker, body: seq<Section>)
    decreases t
  {
    && t.filters == []
    && t.state in {NotStarted, ExecutingChildren, CompletedSuccessfully}
    && TidyChildren(t, body)
    && (t.state == NotStarted ==> t.children == [])
    && (t.state == ExecutingChildren ==>
          |t.children| == |body| && body != [] && !IsComplete(t.children[|body| - 1]))
  }

  /** The children are in order: behind an incomplete one nothing has been started. */
  ghost predicate TidyChildren(t: Tracker, body: seq<Section>)
    decreases t, 0
  {
    && |t.children| <= |body|
    && (forall i :: 0 <= i < |t.children| ==> t.children[i].id == body[i].id && Tidy(t.children[i], body[i].body))
    && (forall i, j :: 0 <= i < j < |t.children| && !IsComplete(t.children[i]) ==> t.children[j].state == NotStarted)
  }

  lemma {:induction false} SomeLeaf(path: Path, body: seq<Section>)
    ensures LeavesOf(path, body) != []
    decreases SectionCount(body)
  {
    if body != [] {
      InnerCount(body, 0);
      SomeLeaf(path + [0], body[0].body);
    }
  }

  /** Before its first run a section has all its leaves to run. */
  lemma {:induction false} FreshRemaining(path: Path, t: Tracker, body: seq<Section>, i: nat)
    requires i <= |body| && |t.children| <= i
    ensures Remaining(path, t, body, i) == Leaves(path, body, i)
    decreases |body| - i
  {
    if i < |body| { FreshRemaining(path, t, body, i + 1); }
  }

  /** An incomplete section has some leaf to run. */
  lemma {:induction false} SomeRemaining(path: Path, t: Tracker, body: seq<Section>)
    requires Tidy(t, body) && !IsComplete(t)
    ensures RemainingOf(path, t, body) != []
    decreases t
  {
    if t.state == NotStarted {
      FreshRemaining(path, t, body, 0);
      SomeLeaf(path, body);
    } else {
      var last := |body| - 1;
      SomeRemaining(path + [last], t.children[last], body[last].body);
      RemainingReaches(path, t, body, 0, last);
    }
  }

  lemma {:induction false} RemainingReaches(path: Path, t: Tracker, body: seq<Section>, i: nat, j: nat)
    requires i <= j < |body| && j < |t.children|
    requires RemainingOf(path + [j], t.children[j], body[j].body) != []
    ensures Remaining(path, t, body, i) != []
    decreases j - i
  {
    hide RemainingOf, LeavesOf;
    if i < j { RemainingReaches(path, t, body, i + 1, j); }
  }

  /** Remaining looks at the children from i on only. */
  lemma {:induction false} RemainingDepends(path: Path, t: Tracker, u: Tracker, body: seq<Section>, i: nat)
    requires i <= |body| && |t.children| == |u.children|
    requires forall j :: i <= j < |t.children| ==> t.children[j] == u.children[j]
    ensures Remaining(path, t, body, i) == Remaining(path, u, body, i)
    decreases |body| - i
  {
    if i < |body| { RemainingDepends(path, t, u, body, i + 1); }
  }

  lemma {:induction false} AcquiredRemaining(
    path: Path, t: Tracker, id: NameAndLocation, body: seq<Section>, k: nat, i: nat)
    requires k <= |t.children| && k < |body| && i <= |body| && t.filters == []
    ensures Remaining(path, Acquired(t, id, k), body, i) == Remaining(path, t, body, i)
    decreases |body| - i
  {
    if i < |body| {
      AcquiredRemaining(path, t, id, body, k, i + 1);
      if k == i == |t.children| { NewRemaining(path + [i], id, body[i].body); }
    }
  }

  lemma NewRemaining(path: Path, id: NameAndLocation, body: seq<Section>)
    ensures RemainingOf(path, NewTracker(id, []), body) == LeavesOf(path, body)
  {
    FreshRemaining(path, NewTracker(id, []), body, 0);
  }

  /** Children that are all complete have nothing left to run, and the other way round. */
  lemma {:induction false} NothingRemains(path: Path, t: Tracker, body: seq<Section>, i: nat)
    requires TidyChildren(t, body) && |t.children| == |body| && i <= |body|
    ensures Remaining(path, t, body, i) == [] <==> forall j :: i <= j < |body| ==> IsComplete(t.children[j])
    decreases |body| - i
  {
    if i < |body| {
      NothingRemains(path, t, body, i + 1);
      if !IsComplete(t.children[i]) {
        assert Tidy(t.children[i], body[i].body);
        SomeRemaining(path + [i], t.children[i], body[i].body);
      }
    }
  }

  // ---------- one cycle ----------

  ghost predicate Calm(sched: nat -> bool) { forall n :: !sched(n) }

  ghost predicate TidyReady(t: Tracker, body: seq<Section>, i: nat, completed: bool) {
    && i <= |body| && i <= |t.children| && TidyChildren(t, body) && t.filters == []
    && (if completed then Untouched(t, i) else forall j :: 0 <= j < i ==> IsComplete(t.children[j]))
  }

  /** A run of (the rest of) a body ran the first remaining leaf, if the cycle was still open and there
      was one, and nothing else. */
  ghost predicate RanFirst(path: Path, t: Tracker, body: seq<Section>, i: nat, completed: bool, r: Outcome)
    requires i <= |body| && i <= |t.children|
  {
    var rem := Remaining(path, t, body, i);
    && TidyChildren(r.t, body) && |r.t.children| == |body|
    && r.t.filters == [] && r.t.id == t.id && !r.threw
    && r.t.children[..i] == t.children[..i]
    && (if completed || rem == [] then
          r.completed == completed && r.t.state == t.state && r.log == [] && Remaining(path, r.t, body, i) == rem
        else
          r.completed && r.t.state == ExecutingChildren &&
          LeafPaths(r.log) == [rem[0]] && Remaining(path, r.t, body, i) == rem[1..])
  }

  lemma TidyAcquired(t: Tracker, body: seq<Section>, i: nat, completed: bool)
    requires TidyReady(t, body, i, completed) && i < |body|
    ensures var t1 := Acquired(t, body[i].id, i); var c := t1.children[i];
      && TidyReady(t1, body, i, completed)
      && t1.children[..i] == t.children[..i]
      && c.filters == [] && c.id == body[i].id && Tidy(c, body[i].body)
      && (completed || IsComplete(c) ==> TidyReady(t1, body, i + 1, completed))
  {
    if i < |t.children| { assert Tidy(t.children[i], body[i].body); }
  }

  lemma TidyOpen(c: Tracker, body: seq<Section>)
    requires Tidy(c, body)
    ensures TidyReady(c.(state := Executing), body, 0, false)
  {
  }

  /** Leaving a section: its first remaining leaf is gone from the list. */
  lemma TidyClosed(path: Path, c: Tracker, body: seq<Section>, r: Outcome)
    requires Tidy(c, body) && !IsComplete(c)
    requires RanFirst(path, c.(state := Executing), body, 0, false, r)
    ensures Tidy(Closed(r.t), body)
    ensures RemainingOf(path, c, body) != []
    ensures RemainingOf(path, Closed(r.t), body) == RemainingOf(path, c, body)[1..]
    ensures LeafPaths([Visit(path, body == [])] + r.log) == [RemainingOf(path, c, body)[0]]
    ensures IsComplete(Closed(r.t)) <==> RemainingOf(path, c, body)[1..] == []
  {
    hide Tidy, TidyChildren, Remaining, RemainingOf, LeafPaths, Closed;
    var open := c.(state := Executing);
    SomeRemaining(path, c, body);
    RemainingDepends(path, c, open, body, 0);
    RemainingUnfoldOf(path, c, body);
    EntryLogged(path, body == [], r.log);
    if body == [] {
      NoSections(path, open);
      ClosedLeaf(path, c, r.t);
    } else {
      ClosedBody(path, r.t, body);
    }
  }

  lemma RemainingUnfoldOf(path: Path, t: Tracker, body: seq<Section>)
    requires !IsComplete(t)
    ensures RemainingOf(path, t, body) == if body == [] then [path] else Remaining(path, t, body, 0)
  {
    hide Remaining;
  }

  lemma EntryLogged(path: Path, leaf: bool, log: seq<Visit>)
    ensures LeafPaths([Visit(path, leaf)] + log) == (if leaf then [path] else []) + LeafPaths(log)
    ensures LeafPaths([]) == []
  {
    LeafPathsAppend([Visit(path, leaf)], log);
    assert [Visit(path, leaf)][1..] == [];
  }

  lemma NoSections(path: Path, t: Tracker)
    ensures Remaining(path, t, [], 0) == []
  {
  }

  lemma ClosedLeaf(path: Path, c: Tracker, t: Tracker)
    requires t.state == Executing && t.filters == [] && t.children == []
    ensures IsComplete(Closed(t)) && Tidy(Closed(t), []) && RemainingOf(path, Closed(t), []) == []
  {
  }

  lemma ClosedBody(path: Path, t: Tracker, body: seq<Section>)
    requires t.state == ExecutingChildren && t.filters == []
    requires TidyChildren(t, body) && |t.children| == |body| && body != []
    ensures Tidy(Closed(t), body)
    ensures RemainingOf(path, Closed(t), body) == Remaining(path, t, body, 0)
    ensures IsComplete(Closed(t)) <==> Remaining(path, t, body, 0) == []
  {
    hide TidyChildren, Remaining;
    NothingRemains(path, t, body, 0);
    LastDecides(t, body);
    SameTidyChildren(t, Closed(t), body);
    RemainingDepends(path, t, Closed(t), body, 0);
  }

  lemma SameTidyChildren(t: Tracker, u: Tracker, body: seq<Section>)
    requires TidyChildren(t, body) && u.children == t.children
    ensures TidyChildren(u, body)
  {
  }

  /** Once all children are known, the last one is complete iff all are. */
  lemma LastDecides(t: Tracker, body: seq<Section>)
    requires TidyChildren(t, body) && |t.children| == |body| && body != []
    ensures IsComplete(t.children[|body| - 1]) <==> forall j :: 0 <= j < |body| ==> IsComplete(t.children[j])
  {
  }

  lemma TidyLeft(t: Tracker, body: seq<Section>, i: nat, r: Outcome)
    requires TidyReady(t, body, i, false) && i < |body| && i < |t.children| && !IsComplete(t.children[i])
    requires !r.threw && Tidy(Closed(r.t), body[i].body) && r.t.id == t.children[i].id
    ensures TidyReady(Left(t, i, r), body, i + 1, true)
  {
  }

  lemma {:induction false} RunRanFirst(
    sched: nat -> bool, path: Path, t: Tracker, body: seq<Section>, i: nat, completed: bool, step: nat)
    requires Calm(sched) && TidyReady(t, body, i, completed) && t.state in {Executing, ExecutingChildren}
    ensures RanFirst(path, t, body, i, completed, RunSections(sched, path, t, body, i, completed, step))
    decreases SectionCount(body), |body| - i
  {
    hide TidyChildren, Tidy, Remaining, RemainingOf, Leaves, LeavesOf, LeafPaths, Untouched;
    if i == |body| {
      NothingMore(path, t, body, completed);
    } else {
      var s := body[i];
      InnerCount(body, i);
      TidyAcquired(t, body, i, completed);
      AcquiredRemaining(path, t, s.id, body, i, i);
      var t1 := Acquired(t, s.id, i);
      var c := t1.children[i];
      if completed || IsComplete(c) {
        RunRanFirst(sched, path, t1, body, i + 1, completed, step + 1);
        SkippedRanFirst(path, t, t1, body, i, completed,
          RunSections(sched, path, t1, body, i + 1, completed, step + 1));
      } else {
        TidyOpen(c, s.body);
        var r := RunSections(sched, path + [i], c.(state := Executing), s.body, 0, false, step + 1);
        RunRanFirst(sched, path + [i], c.(state := Executing), s.body, 0, false, step + 1);
        TidyClosed(path + [i], c, s.body, r);
        TidyLeft(t1, body, i, r);
        var t2 := Left(t1, i, r);
        RunRanFirst(sched, path, t2, body, i + 1, true, r.step);
        EnteredRanFirst(path, t, t1, body, i, r, RunSections(sched, path, t2, body, i + 1, true, r.step));
      }
    }
  }

  lemma NothingMore(path: Path, t: Tracker, body: seq<Section>, completed: bool)
    requires TidyReady(t, body, |body|, completed)
    ensures |t.children| == |body| && Remaining(path, t, body, |body|) == []
  {
  }

  /** The i-th section was passed over. */
  lemma SkippedRanFirst(path: Path, t: Tracker, t1: Tracker, body: seq<Section>, i: nat, completed: bool, r: Outcome)
    requires i < |body| && i <= |t.children| && i < |t1.children| && TidyChildren(t1, body)
    requires t1.id == t.id && t1.state == t.state && t1.children[..i] == t.children[..i]
    requires completed || IsComplete(t1.children[i])
    requires Remaining(path, t1, body, i) == Remaining(path, t, body, i)
    requires RanFirst(path, t1, body, i + 1, completed, r)
    ensures RanFirst(path, t, body, i, completed, r)
  {
    hide TidyChildren, LeafPaths;
    assert r.t.children[i] == r.t.children[..i + 1][i] == t1.children[i];
    assert r.t.children[..i] == r.t.children[..i + 1][..i];
    var first := RemainingOf(path + [i], t1.children[i], body[i].body);
    assert Remaining(path, t1, body, i) == first + Remaining(path, t1, body, i + 1);
    assert Remaining(path, r.t, body, i) == first + Remaining(path, r.t, body, i + 1);
  }

  /** The i-th section was entered, and run as r. */
  lemma EnteredRanFirst(path: Path, t: Tracker, t1: Tracker, body: seq<Section>, i: nat, r: Outcome, r2: Outcome)
    requires i < |body| && i <= |t.children| && i < |t1.children|
    requires t1.id == t.id && t1.children[..i] == t.children[..i] && !r.threw
    requires Remaining(path, t1, body, i) == Remaining(path, t, body, i)
    requires var rem := RemainingOf(path + [i], t1.children[i], body[i].body);
      && rem != []
      && RemainingOf(path + [i], Closed(r.t), body[i].body) == rem[1..]
      && LeafPaths([Visit(path + [i], body[i].body == [])] + r.log) == [rem[0]]
    requires RanFirst(path, Left(t1, i, r), body, i + 1, true, r2)
    ensures RanFirst(path, t, body, i, false,
      r2.(log := [Visit(path + [i], body[i].body == [])] + r.log + r2.log))
  {
    hide TidyChildren, LeafPaths, RemainingOf, Remaining, Closed;
    var t2 := Left(t1, i, r);
    var rem := RemainingOf(path + [i], t1.children[i], body[i].body);
    var rest := Remaining(path, t1, body, i + 1);
    KeptChildren(t1.children, t2.children, r2.t.children, i);
    RemainingDepends(path, t1, t2, body, i + 1);
    RemainingUnfold(path, t1, body, i);
    RemainingUnfold(path, r2.t, body, i);
    var log := [Visit(path + [i], body[i].body == [])] + r.log;
    NothingAdded(log, r2.log);
    FirstGone(rem, rest);
  }

  lemma NothingAdded(log: seq<Visit>, none: seq<Visit>)
    requires none == []
    ensures log + none == log
  {
  }

  lemma FirstGone(rem: seq<Path>, rest: seq<Path>)
    requires rem != []
    ensures rem + rest != [] && (rem + rest)[0] == rem[0] && (rem + rest)[1..] == rem[1..] + rest
  {
  }

  lemma RemainingUnfold(path: Path, t: Tracker, body: seq<Section>, i: nat)
    requires i < |body| && i < |t.children|
    ensures Remaining(path, t, body, i) ==
      RemainingOf(path + [i], t.children[i], body[i].body) + Remaining(path, t, body, i + 1)
  {
    hide RemainingOf;
  }

  lemma KeptChildren(before: seq<Tracker>, left: seq<Tracker>, after: seq<Tracker>, i: nat)
    requires i < |before| == |left| && i < |after| && left == before[i := left[i]]
    requires after[..i + 1] == left[..i + 1]
    ensures after[i] == left[i] && after[..i] == before[..i]
  {
    assert after[..i + 1][i] == left[..i + 1][i];
    assert after[..i] == after[..i + 1][..i];
    assert before[..i] == left[..i + 1][..i];
  }

  /** One undisturbed round of the loop: it runs the first remaining leaf and completes the test case
      iff that was the last. */
  lemma CycleRunsFirst(sched: nat -> bool, t: Tracker, body: seq<Section>, step: nat)
    requires Calm(sched) && Tidy(t, body) && !IsComplete(t)
    ensures var r := RunCycle(sched, t, body, step); var rem := RemainingOf([], t, body);
      && Tidy(r.t, body) && rem != [] && RemainingOf([], r.t, body) == rem[1..]
      && (IsComplete(r.t) <==> |rem| == 1)
      && LeafPaths(r.log) == if body == [] then [] else [rem[0]]
  {
    hide RunSections, Tidy, RemainingOf, Remaining;
    TidyOpen(t, body);
    var open := t.(state := Executing);
    RunRanFirst(sched, [], open, body, 0, false, step);
    var r := RunSections(sched, [], open, body, 0, false, step);
    TidyClosed([], t, body, r);
    LeafPathsAppend([Visit([], body == [])], r.log);
    assert [Visit([], body == [])][1..] == [];
    if body == [] { NoSections([], open); }
  }

  /** Exactly once: round n, of as many as there are leaves (one if there are no sections), runs the
      n-th leaf in depth-first order, and the last round completes the test case. */
  lemma {:induction false} EachLeafOnce(sched: nat -> bool, id: NameAndLocation, body: seq<Section>, start: nat, n: nat)
    requires Calm(sched) && n <= |LeavesOf([], body)|
    ensures var leaves := LeavesOf([], body); var u := After(sched, NewTracker(id, []), body, start, n).0;
      && Tidy(u, body)
      && (IsComplete(u) <==> n == |leaves|)
      && RemainingOf([], u, body) == leaves[n..]
      && (n < |leaves| ==>
          LeafPaths(Entered(sched, NewTracker(id, []), body, start, n)) == if body == [] then [] else [leaves[n]])
    decreases n
  {
    hide RunCycle, Tidy, RemainingOf, LeavesOf;
    var t := NewTracker(id, []);
    var leaves := LeavesOf([], body);
    if n == 0 {
      NewRemaining([], id, body);
      NewTidy(id, body);
      SomeLeaf([], body);
    } else {
      EachLeafOnce(sched, id, body, start, n - 1);
      var (u, step) := After(sched, t, body, start, n - 1);
      CycleRunsFirst(sched, u, body, step);
      assert leaves[n - 1..][1..] == leaves[n..];
    }
    if n < |leaves| {
      var (u, step) := After(sched, t, body, start, n);
      CycleRunsFirst(sched, u, body, step);
    }
  }

  lemma NewTidy(id: NameAndLocation, body: seq<Section>)
    ensures Tidy(NewTracker(id, []), body)
  {
  }

  /** Everything entered in the first n rounds. */
  ghost function AllEntered(sched: nat -> bool, t: Tracker, body: seq<Section>, start: nat, n: nat): seq<Visit> {
    if n == 0 then [] else AllEntered(sched, t, body, start, n - 1) + Entered(sched, t, body, start, n - 1)
  }

  lemma NoLeafPaths()
    ensures LeafPaths([]) == []
  {
  }

  /** After n undisturbed rounds the first n leaves have been run, in order. */
  lemma {:induction false} LeavesInOrder(
    sched: nat -> bool, id: NameAndLocation, body: seq<Section>, start: nat, n: nat)
    requires Calm(sched) && body != [] && n <= |LeavesOf([], body)|
    ensures LeafPaths(AllEntered(sched, NewTracker(id, []), body, start, n)) == LeavesOf([], body)[..n]
  {
    hide LeavesOf, Entered, After, LeafPaths, RemainingOf, Tidy;
    if n == 0 { NoLeafPaths(); }
    var t, leaves := NewTracker(id, []), LeavesOf([], body);
    if n > 0 {
      LeavesInOrder(sched, id, body, start, n - 1);
      EachLeafOnce(sched, id, body, start, n - 1);
      LeafPathsAppend(AllEntered(sched, t, body, start, n - 1), Entered(sched, t, body, start, n - 1));
      assert leaves[..n] == leaves[..n - 1] + [leaves[n - 1]];
    }
  }
}
