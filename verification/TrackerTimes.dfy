/** What a request's report says, read off the events of its run: every span runs between two
    milestones, and item times and counters add up over the items. */
module TrackerTimes {
  import opened Options
  import opened Sequences
  import opened Tracker

  datatype Milestone = Scheduling | Snapshot | ItemsBegun | ItemBegun | AllFinished

  ghost predicate IsMilestone(e: Event, m: Milestone) {
    match m
    case Scheduling => e.OnScheduled?
    case Snapshot => e.OnSnapshotFinished?
    case ItemsBegun => e.OnBeginAllItems?
    case ItemBegun => e.OnBeginItem?
    case AllFinished => e.OnFinishAllItems?
  }

  ghost predicate Passed(run: seq<Timed>, m: Milestone) {
    exists i :: 0 <= i < |run| && IsMilestone(run[i].event, m)
  }

  /** The reading at the last such event, or at the beginning. */
  ghost function ReadingAt(begin: Reading, run: seq<Timed>, m: Milestone): Reading {
    if run == [] then begin
    else if IsMilestone(run[|run| - 1].event, m) then run[|run| - 1].reading
    else ReadingAt(begin, run[..|run| - 1], m)
  }

  /** Time between two milestones, once the later one is passed. */
  ghost function Span(begin: Reading, run: seq<Timed>, from: int, to: Milestone): int {
    if Passed(run, to) then ReadingAt(begin, run, to).now - from else 0
  }

  /** Over all items finished: from the item's beginning to its end. */
  ghost function ItemTime(begin: Reading, run: seq<Timed>): int {
    if run == [] then 0
    else
      var n := |run| - 1;
      ItemTime(begin, run[..n]) +
      if run[n].event.OnFinishItem? then run[n].reading.now - ReadingAt(begin, run[..n], ItemBegun).now else 0
  }

  ghost function ItemPerf(begin: Reading, run: seq<Timed>): int {
    if run == [] then 0
    else
      var n := |run| - 1;
      ItemPerf(begin, run[..n]) +
      if run[n].event.OnFinishItem? then run[n].reading.counter - ReadingAt(begin, run[..n], ItemBegun).counter else 0
  }

  /** How long the last finished item took. */
  ghost function LastItem(begin: Reading, run: seq<Timed>): int {
    if run == [] then 0
    else
      var n := |run| - 1;
      if run[n].event.OnFinishItem? then run[n].reading.now - ReadingAt(begin, run[..n], ItemBegun).now
      else LastItem(begin, run[..n])
  }

  /** An item has begun and not finished. */
  ghost predicate InItem(run: seq<Timed>) {
    run != [] &&
    var e := run[|run| - 1].event;
    e.OnBeginItem? || (!e.OnFinishItem? && InItem(run[..|run| - 1]))
  }

  ghost predicate TimesOf(begin: Reading, run: seq<Timed>, t: Times) {
    && t.schedule == Span(begin, run, begin.now, Scheduling)
    && t.snapshot == Span(begin, run, ReadingAt(begin, run, Scheduling).now, Snapshot)
    && t.wait == Span(begin, run, begin.now, Snapshot)
    && t.build == Span(begin, run, ReadingAt(begin, run, Snapshot).now, ItemsBegun)
    && t.total == ItemTime(begin, run)
    && t.lifetime == Span(begin, run, begin.now, AllFinished)
  }

  /** How far a stage has come, in milestones. */
  ghost predicate StageFits(run: seq<Timed>, stage: Stage) {
    && (Passed(run, Scheduling) <==> !stage.Initialized?)
    && (Passed(run, Snapshot) <==> !stage.Initialized? && !stage.Scheduled?)
    && (Passed(run, ItemsBegun) <==> !stage.Initialized? && !stage.Scheduled? && !stage.SnapshotRetrieved?)
    && (Passed(run, AllFinished) <==> stage.Tracked?)
  }

  ghost predicate MemoryFits(begin: Reading, run: seq<Timed>, s: State) {
    && s.begin == begin.now && s.perf == ItemPerf(begin, run) && s.item == LastItem(begin, run)
    && (s.stage.ItemBegan? <==> InItem(run))
    && (s.stage.Scheduled? ==> s.stage.at == ReadingAt(begin, run, Scheduling).now)
    && (s.stage.SnapshotRetrieved? ==> s.stage.at == ReadingAt(begin, run, Snapshot).now)
    && (s.stage.ItemBegan? ==>
          var r := ReadingAt(begin, run, ItemBegun); s.itemBegin == r.now && s.perfStart == Some(r.counter))
    && (s.stage.Tracked? ==> s.reports != [] && s.reports[0].times == s.times && s.reports[0].perf == s.perf)
  }

  lemma {:induction false} OneMore(begin: Reading, run: seq<Timed>, next: Timed, m: Milestone)
    ensures Passed(run + [next], m) <==> Passed(run, m) || IsMilestone(next.event, m)
    ensures ReadingAt(begin, run + [next], m) ==
            if IsMilestone(next.event, m) then next.reading else ReadingAt(begin, run, m)
  {
    var all := run + [next];
    assert all[..|run|] == run && all[|run|] == next;
    if i :| 0 <= i < |run| && IsMilestone(run[i].event, m) {
      assert IsMilestone(all[i].event, m);
    }
    if i :| 0 <= i < |all| && IsMilestone(all[i].event, m) {
      assert i < |run| ==> run[i] == all[i];
    }
  }

  lemma {:induction false} ItemsGrow(begin: Reading, run: seq<Timed>, next: Timed)
    ensures var r := ReadingAt(begin, run, ItemBegun);
            && ItemTime(begin, run + [next]) ==
               ItemTime(begin, run) + (if next.event.OnFinishItem? then next.reading.now - r.now else 0)
            && ItemPerf(begin, run + [next]) ==
               ItemPerf(begin, run) + (if next.event.OnFinishItem? then next.reading.counter - r.counter else 0)
            && LastItem(begin, run + [next]) ==
               (if next.event.OnFinishItem? then next.reading.now - r.now else LastItem(begin, run))
            && (InItem(run + [next]) <==> next.event.OnBeginItem? || (!next.event.OnFinishItem? && InItem(run)))
  {
    assert (run + [next])[..|run|] == run;
  }

  lemma {:induction false} StepTimes(begin: Reading, run: seq<Timed>, s: State, next: Timed)
    requires Enabled(s, next.event, next.reading)
    requires TimesOf(begin, run, s.times) && StageFits(run, s.stage) && MemoryFits(begin, run, s)
    requires !s.stage.Tracked? ==> s.reports == []
    requires !s.stage.AllItemsFinished?
    ensures var s' := Step(s, next.event, next.reading);
            && TimesOf(begin, run + [next], s'.times) && StageFits(run + [next], s'.stage)
            && MemoryFits(begin, run + [next], s')
            && (!s'.stage.Tracked? ==> s'.reports == []) && !s'.stage.AllItemsFinished?
  {
    OneMore(begin, run, next, Scheduling);
    OneMore(begin, run, next, Snapshot);
    OneMore(begin, run, next, ItemsBegun);
    OneMore(begin, run, next, ItemBegun);
    OneMore(begin, run, next, AllFinished);
    ItemsGrow(begin, run, next);
  }

  /** At every point of every run the tracker's times and counters are those of the events so far. */
  lemma {:induction false} RunTimes(begin: Reading, run: seq<Timed>)
    requires InTime(begin, run) && Run(begin, run).Some?
    ensures var s := Run(begin, run).value;
            && TimesOf(begin, run, s.times) && StageFits(run, s.stage) && MemoryFits(begin, run, s)
            && (!s.stage.Tracked? ==> s.reports == []) && !s.stage.AllItemsFinished?
    decreases |run|
  {
    if run != [] {
      var n := |run| - 1;
      RunTimes(begin, run[..n]);
      var s := Run(begin, run[..n]).value;
      StepKeeps(s, run[n].event, LastReading(begin, run[..n]), run[n].reading);
      StepTimes(begin, run[..n], s, run[n]);
      assert run[..n] + [run[n]] == run;
    }
  }

  /** What has to have happened before an event, in terms of the events before it. */
  ghost predicate Timely(run: seq<Timed>, e: Event) {
    match e
    case OnScheduled => !Passed(run, Scheduling)
    case OnSnapshotFinished => Passed(run, Scheduling) && !Passed(run, Snapshot)
    case OnBeginAllItems => Passed(run, Snapshot) && !Passed(run, ItemsBegun)
    case OnBeginItem => Passed(run, ItemsBegun) && !Passed(run, AllFinished) && !InItem(run)
    case OnFinishItem(_) => InItem(run)
    case Collect(_) => true
    case OnFinishAllItems => Passed(run, ItemsBegun) && !Passed(run, AllFinished) && !InItem(run)
  }

  ghost predicate Orderly(run: seq<Timed>) {
    run == [] || (Orderly(run[..|run| - 1]) && Timely(run[..|run| - 1], run[|run| - 1].event))
  }

  /** The tracker goes through a run without panic if and only if every event comes in its time. */
  lemma {:induction false} RunsIffOrderly(begin: Reading, run: seq<Timed>)
    requires InTime(begin, run)
    ensures Run(begin, run).Some? <==> Orderly(run)
    decreases |run|
  {
    if run != [] {
      var n := |run| - 1;
      RunsIffOrderly(begin, run[..n]);
      if Run(begin, run[..n]).Some? {
        RunTimes(begin, run[..n]);
        TimelyIffAllowed(run[..n], Run(begin, run[..n]).value.stage, run[n].event);
      }
    }
  }

  lemma {:induction false} TimelyIffAllowed(run: seq<Timed>, stage: Stage, e: Event)
    requires StageFits(run, stage) && (stage.ItemBegan? <==> InItem(run)) && !stage.AllItemsFinished?
    ensures Allowed(stage, e) <==> Timely(run, e)
  {
  }

  // ---------- dropping ----------

  /** One test of a drop is the event that is missing, or none. */
  lemma {:induction false} TestGoesOn(begin: Reading, run: seq<Timed>, i: nat, before: Reading, r: Reading)
      returns (more: seq<Timed>)
    requires InTime(begin, run) && Run(begin, run).Some? && Consistent(Run(begin, run).value, before)
    requires NoEarlier(LastReading(begin, run), before) && NoEarlier(before, r)
    ensures InTime(begin, run + more) && forall k | 0 <= k < |more| :: more[k].reading == r
    ensures Run(begin, run + more) == Some(ForwardStep(Run(begin, run).value, i, before, r))
    ensures NoEarlier(LastReading(begin, run + more), r)
  {
    var s := Run(begin, run).value;
    match Missing(s.stage, i) {
      case Some(e) =>
        StepKeeps(s, e, before, r);
        RunOn(begin, run, Timed(e, r));
        more := [Timed(e, r)];
      case None =>
        more := [];
        assert run + more == run;
    }
  }

  /** A drop goes on with the run: the missing events, at the readings it takes. */
  lemma {:induction false} DropGoesOn(begin: Reading, run: seq<Timed>, rs: seq<Reading>, before: Reading, i: nat)
      returns (more: seq<Timed>)
    requires InTime(begin, run) && Run(begin, run).Some? && Follows(before, rs) && i <= 5
    requires NoEarlier(LastReading(begin, run), Previous(before, rs, i))
    requires Consistent(Run(begin, run).value, Previous(before, rs, i))
    ensures InTime(begin, run + more) && forall k | 0 <= k < |more| :: more[k].reading in rs
    ensures Run(begin, run + more) == Some(Forward(Run(begin, run).value, i, before, rs))
    decreases 5 - i
  {
    if i == 5 {
      more := [];
      assert run + more == run;
    } else {
      var first := TestGoesOn(begin, run, i, Previous(before, rs, i), rs[i]);
      var rest := DropGoesOn(begin, run + first, rs, before, i + 1);
      Associate(run, first, rest);
      more := first + rest;
    }
  }

  /** Every run, dropped at any point, is reported with the times and counters of its own events and of
      those that the drop adds. */
  lemma {:induction false} ReportTimes(begin: Reading, run: seq<Timed>, rs: seq<Reading>) returns (more: seq<Timed>)
    requires InTime(begin, run) && Run(begin, run).Some? && Follows(LastReading(begin, run), rs)
    ensures forall k | 0 <= k < |more| :: more[k].reading in rs
    ensures var d := Dropped(Run(begin, run).value, LastReading(begin, run), rs);
            && |d.reports| == 1 && TimesOf(begin, run + more, d.reports[0].times)
            && d.reports[0].perf == ItemPerf(begin, run + more)
            && Passed(run + more, AllFinished)
  {
    more := DropGoesOn(begin, run, rs, LastReading(begin, run), 0);
    ReportedOnce(begin, run, rs);
    RunTimes(begin, run + more);
  }
}
