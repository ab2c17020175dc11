/** The request tracker: a stage machine that times a request and reports it exactly once, however
    far the request got before it was dropped. */
module Tracker {
  import opened Options

  type Instant = nat
  type Duration = nat

  datatype Stage =
    | Initialized | Scheduled(at: Instant) | SnapshotRetrieved(at: Instant)
    | AllItemsBegan | ItemBegan | ItemFinished | AllItemsFinished | Tracked

  datatype Times = Times(schedule: Duration, snapshot: Duration, wait: Duration, build: Duration, total: Duration,
      lifetime: Duration)

  // Scanned keys stand for all the storage statistics that are added up.
  datatype Report = Report(times: Times, scanned: nat, perf: nat)

  datatype State = State(begin: Instant, itemBegin: Instant, item: Duration, stage: Stage, times: Times,
                         scanned: nat, perfStart: Option<nat>, perf: nat, reports: seq<Report>)

  function New(now: Instant): State {
    State(now, now, 0, Initialized, Times(0, 0, 0, 0, 0, 0), 0, None, 0, [])
  }

  // ---------- the stages ----------

  datatype Event =
    | OnScheduled | OnSnapshotFinished | OnBeginAllItems | OnBeginItem | OnFinishItem(stats: Option<nat>)
    | Collect(amount: nat) | OnFinishAllItems

  // What the clock and the performance counter show.
  datatype Reading = Reading(now: Instant, counter: nat)

  predicate NoEarlier(a: Reading, b: Reading) {
    a.now <= b.now && a.counter <= b.counter
  }

  /** The source panics outside these stages. */
  predicate Allowed(s: Stage, e: Event) {
    match e
    case OnScheduled => s.Initialized?
    case OnSnapshotFinished => s.Scheduled?
    case OnBeginAllItems => s.SnapshotRetrieved?
    case OnBeginItem => s.AllItemsBegan? || s.ItemFinished?
    case OnFinishItem(_) => s.ItemBegan?
    case Collect(_) => true
    case OnFinishAllItems => s.AllItemsBegan? || s.ItemFinished?
  }

  ghost predicate Enabled(s: State, e: Event, r: Reading) {
    && Allowed(s.stage, e) && s.begin <= r.now && s.itemBegin <= r.now
    && (s.stage.Scheduled? || s.stage.SnapshotRetrieved? ==> s.stage.at <= r.now)
    && (s.perfStart.Some? ==> s.perfStart.value <= r.counter)
  }

  function StatsIn(e: Event): nat {
    match e
    case OnFinishItem(Some(stats)) => stats
    case Collect(amount) => amount
    case _ => 0
  }

  ghost function Step(s: State, e: Event, r: Reading): State
    requires Enabled(s, e, r)
  {
    match e
    case OnScheduled => s.(times := s.times.(schedule := r.now - s.begin), stage := Scheduled(r.now))
    case OnSnapshotFinished =>
      s.(times := s.times.(snapshot := r.now - s.stage.at, wait := r.now - s.begin), stage := SnapshotRetrieved(r.now))
    case OnBeginAllItems => s.(times := s.times.(build := r.now - s.stage.at), stage := AllItemsBegan)
    case OnBeginItem => s.(itemBegin := r.now, perfStart := Some(r.counter), stage := ItemBegan)
    case OnFinishItem(_) =>
      s.(item := r.now - s.itemBegin, times := s.times.(total := s.times.total + (r.now - s.itemBegin)),
         scanned := s.scanned + StatsIn(e),
         perf := s.perf + if s.perfStart.Some? then r.counter - s.perfStart.value else 0,
         perfStart := None, stage := ItemFinished)
    case Collect(_) => s.(scanned := s.scanned + StatsIn(e))
    case OnFinishAllItems =>
      var times := s.times.(lifetime := r.now - s.begin);
      s.(times := times, reports := s.reports + [Report(times, s.scanned, s.perf)], scanned := 0, stage := Tracked)
  }

  class RequestTracker {
    var begin: Instant
    var itemBegin: Instant
    var item: Duration
    var stage: Stage
    var times: Times
    var scanned: nat
    var perfStart: Option<nat>
    var perf: nat
    var reports: seq<Report>

    ghost function Model(): State
      reads this
    {
      State(begin, itemBegin, item, stage, times, scanned, perfStart, perf, reports)
    }

    constructor (now: Instant)
      ensures Model() == New(now)
    {
      begin, itemBegin, item, stage := now, now, 0, Initialized;
      times, scanned, perfStart, perf, reports := Times(0, 0, 0, 0, 0, 0), 0, None, 0, [];
    }

    method OnScheduled(r: Reading)
      requires Enabled(Model(), Event.OnScheduled, r)
      modifies this
      ensures Model() == Step(old(Model()), Event.OnScheduled, r)
    {
      times := times.(schedule := r.now - begin);
      stage := Scheduled(r.now);
    }

    method OnSnapshotFinished(r: Reading)
      requires Enabled(Model(), Event.OnSnapshotFinished, r)
      modifies this
      ensures Model() == Step(old(Model()), Event.OnSnapshotFinished, r)
    {
      times := times.(snapshot := r.now - stage.at);
      times := times.(wait := r.now - begin);
      stage := SnapshotRetrieved(r.now);
    }

    method OnBeginAllItems(r: Reading)
      requires Enabled(Model(), Event.OnBeginAllItems, r)
      modifies this
      ensures Model() == Step(old(Model()), Event.OnBeginAllItems, r)
    {
      times := times.(build := r.now - stage.at);
      stage := AllItemsBegan;
    }

    method OnBeginItem(r: Reading)
      requires Enabled(Model(), Event.OnBeginItem, r)
      modifies this
      ensures Model() == Step(old(Model()), Event.OnBeginItem, r)
    {
      itemBegin := r.now;
      perfStart := Some(r.counter);
      stage := ItemBegan;
    }

    method OnFinishItem(stats: Option<nat>, r: Reading)
      requires Enabled(Model(), Event.OnFinishItem(stats), r)
      modifies this
      ensures Model() == Step(old(Model()), Event.OnFinishItem(stats), r)
    {
      item := r.now - itemBegin;
      times := times.(total := times.total + item);
      if stats.Some? {
        scanned := scanned + stats.value;
      }
      if perfStart.Some? {
        perf := perf + (r.counter - perfStart.value);
        perfStart := None;
      }
      stage := ItemFinished;
    }

    method CollectStatistics(stats: nat)
      modifies this
      ensures Model() == old(Model()).(scanned := old(scanned) + stats)
    {
      scanned := scanned + stats;
    }

    method OnFinishAllItems(r: Reading)
      requires Enabled(Model(), Event.OnFinishAllItems, r)
      modifies this
      ensures Model() == Step(old(Model()), Event.OnFinishAllItems, r)
    {
      times := times.(lifetime := r.now - begin);
      stage := AllItemsFinished;
      Track();
    }

    method Track()
      modifies this
      ensures if old(stage).AllItemsFinished?
              then Model() == old(Model()).(reports := old(reports) + [Report(times, old(scanned), perf)],
                  scanned := 0, stage := Tracked)
              else Model() == old(Model())
    {
      if !stage.AllItemsFinished? {
        return;
      }
      var total := scanned;
      scanned := 0;
      reports := reports + [Report(times, total, perf)];
      stage := Tracked;
    }

    method SkipSchedule(r: Reading, ghost before: Reading)
      requires Consistent(Model(), before) && NoEarlier(before, r)
      modifies this
      ensures Model() == ForwardStep(old(Model()), 0, before, r)
    {
      if stage.Initialized? {
        OnScheduled(r);
      }
    }

    method SkipSnapshot(r: Reading, ghost before: Reading)
      requires Consistent(Model(), before) && NoEarlier(before, r)
      modifies this
      ensures Model() == ForwardStep(old(Model()), 1, before, r)
    {
      if stage.Scheduled? {
        OnSnapshotFinished(r);
      }
    }

    method SkipBuild(r: Reading, ghost before: Reading)
      requires Consistent(Model(), before) && NoEarlier(before, r)
      modifies this
      ensures Model() == ForwardStep(old(Model()), 2, before, r)
    {
      if stage.SnapshotRetrieved? {
        OnBeginAllItems(r);
      }
    }

    method SkipItem(r: Reading, ghost before: Reading)
      requires Consistent(Model(), before) && NoEarlier(before, r)
      modifies this
      ensures Model() == ForwardStep(old(Model()), 3, before, r)
    {
      if stage.ItemBegan? {
        OnFinishItem(None, r);
      }
    }

    method SkipRest(r: Reading, ghost before: Reading)
      requires Consistent(Model(), before) && NoEarlier(before, r)
      modifies this
      ensures Model() == ForwardStep(old(Model()), 4, before, r)
    {
      if stage.AllItemsBegan? || stage.ItemFinished? {
        OnFinishAllItems(r);
      }
    }

    /** Fast-forwards through the missing stages, reading the clock at each. */
    method Drop(rs: seq<Reading>, ghost before: Reading)
      requires Consistent(Model(), before) && Follows(before, rs)
      modifies this
      ensures Model() == Forward(old(Model()), 0, before, rs)
    {
      SkipSchedule(rs[0], before);
      SkipSnapshot(rs[1], rs[0]);
      SkipBuild(rs[2], rs[1]);
      SkipItem(rs[3], rs[2]);
      SkipRest(rs[4], rs[3]);
    }
  }

  // ---------- what every reachable state satisfies ----------

  ghost function Reported(reports: seq<Report>): nat {
    if reports == [] then 0 else Reported(reports[..|reports| - 1]) + reports[|reports| - 1].scanned
  }

  /** The parts of a time record fit into a span of the request's life. */
  ghost predicate Fits(t: Times, span: int) {
    t.wait == t.schedule + t.snapshot && t.wait + t.build + t.total <= span
  }

  ghost predicate Consistent(s: State, r: Reading) {
    && s.begin <= s.itemBegin <= r.now
    && (s.perfStart.Some? ==> s.perfStart.value <= r.counter)
    && (s.stage.Tracked? <==> |s.reports| == 1) && |s.reports| <= 1
    && match s.stage
       case Initialized => s.times == Times(0, 0, 0, 0, 0, 0)
       case Scheduled(at) => s.begin <= at <= r.now && s.times == Times(at - s.begin, 0, 0, 0, 0, 0)
       case SnapshotRetrieved(at) =>
         at <= r.now && Fits(s.times, at - s.begin) && s.times.wait == at - s.begin && s.times.build == 0 &&
             s.times.total == 0
       case AllItemsBegan => Fits(s.times, r.now - s.begin)
       case ItemBegan => Fits(s.times, s.itemBegin - s.begin)
       case ItemFinished => Fits(s.times, r.now - s.begin)
       case AllItemsFinished => false
       case Tracked => s.reports[0].times == s.times && Fits(s.times, s.times.lifetime)
  }

  /** A consistent tracker accepts every event of its stage and stays consistent. */
  lemma {:induction false} StepKeeps(s: State, e: Event, before: Reading, r: Reading)
    requires Consistent(s, before) && NoEarlier(before, r) && Allowed(s.stage, e)
    ensures Enabled(s, e, r) && Consistent(Step(s, e, r), r)
  {
  }

  lemma {:induction false} LaterKeeps(s: State, before: Reading, r: Reading)
    requires Consistent(s, before) && NoEarlier(before, r)
    ensures Consistent(s, r)
  {
  }

  // ---------- dropping ----------

  /** Five readings that never go back. */
  ghost predicate Follows(before: Reading, rs: seq<Reading>) {
    && |rs| == 5 && NoEarlier(before, rs[0]) && NoEarlier(rs[0], rs[1]) && NoEarlier(rs[1], rs[2])
    && NoEarlier(rs[2], rs[3]) && NoEarlier(rs[3], rs[4])
  }

  /** What the i-th of the five tests of a drop does, if it applies. */
  function Missing(stage: Stage, i: nat): Option<Event> {
    if i == 0 && stage.Initialized? then Some(OnScheduled)
    else if i == 1 && stage.Scheduled? then Some(OnSnapshotFinished)
    else if i == 2 && stage.SnapshotRetrieved? then Some(OnBeginAllItems)
    else if i == 3 && stage.ItemBegan? then Some(OnFinishItem(None))
    else if i == 4 && (stage.AllItemsBegan? || stage.ItemFinished?) then Some(OnFinishAllItems)
    else None
  }

  ghost function ForwardStep(s: State, i: nat, before: Reading, r: Reading): (s': State)
    requires Consistent(s, before) && NoEarlier(before, r)
    ensures Consistent(s', r)
  {
    match Missing(s.stage, i)
    case Some(e) => StepKeeps(s, e, before, r); Step(s, e, r)
    case None => LaterKeeps(s, before, r); s
  }

  function Previous(before: Reading, rs: seq<Reading>, i: nat): Reading
    requires i <= |rs|
  {
    if i == 0 then before else rs[i - 1]
  }

  /** The tests from the i-th on. */
  ghost function Forward(s: State, i: nat, before: Reading, rs: seq<Reading>): (s': State)
    requires Follows(before, rs) && i <= 5 && Consistent(s, Previous(before, rs, i))
    ensures Consistent(s', rs[4])
    decreases 5 - i
  {
    if i == 5 then s
    else Forward(ForwardStep(s, i, Previous(before, rs, i), rs[i]), i + 1, before, rs)
  }

  ghost function Dropped(s: State, before: Reading, rs: seq<Reading>): State
    requires Consistent(s, before) && Follows(before, rs)
  {
    Forward(s, 0, before, rs)
  }

  /** The stage is past the first i tests. */
  ghost predicate Past(stage: Stage, i: nat) {
    && (i > 0 ==> !stage.Initialized?)
    && (i > 1 ==> !stage.Scheduled?)
    && (i > 2 ==> !stage.SnapshotRetrieved?)
    && (i > 3 ==> !stage.ItemBegan?)
    && (i > 4 ==> stage.Tracked?)
  }

  lemma {:induction false} ForwardPasses(s: State, i: nat, before: Reading, r: Reading)
    requires Consistent(s, before) && NoEarlier(before, r) && i < 5 && Past(s.stage, i)
    ensures Past(ForwardStep(s, i, before, r).stage, i + 1)
  {
  }

  lemma {:induction false} ForwardSettles(s: State, i: nat, before: Reading, r: Reading)
    requires Consistent(s, before) && NoEarlier(before, r)
    ensures var s' := ForwardStep(s, i, before, r);
            && (s.stage.Tracked? ==> s' == s)
            && (!s.stage.Tracked? && s'.stage.Tracked? ==> s'.scanned == 0)
  {
  }

  // ---------- runs ----------

  datatype Timed = Timed(event: Event, reading: Reading)

  ghost function LastReading(begin: Reading, run: seq<Timed>): Reading {
    if run == [] then begin else run[|run| - 1].reading
  }

  /** Readings along a run never go back. */
  ghost predicate InTime(begin: Reading, run: seq<Timed>) {
    run == [] || (InTime(begin, run[..|run| - 1]) &&
        NoEarlier(LastReading(begin, run[..|run| - 1]), run[|run| - 1].reading))
  }

  /** The stages a run goes through; absent once an event comes at the wrong stage. */
  ghost function Run(begin: Reading, run: seq<Timed>): (r: Option<State>)
    requires InTime(begin, run)
    ensures r.Some? ==> Consistent(r.value, LastReading(begin, run))
    decreases |run|
  {
    if run == [] then Some(New(begin.now))
    else
      var n := |run| - 1;
      var r := Run(begin, run[..n]);
      if r.None? || !Allowed(r.value.stage, run[n].event) then None
      else
        StepKeeps(r.value, run[n].event, LastReading(begin, run[..n]), run[n].reading);
        Some(Step(r.value, run[n].event, run[n].reading))
  }

  /** All statistics handed over: with finished items, and on their own. */
  ghost function Given(run: seq<Timed>): nat {
    if run == [] then 0
    else
      var e := run[|run| - 1].event;
      Given(run[..|run| - 1]) +
      if e.OnFinishItem? && e.stats.Some? then e.stats.value else if e.Collect? then e.amount else 0
  }

  /** Statistics are neither lost nor counted twice: what was given is reported or still held. */
  lemma {:induction false} StatisticsKept(begin: Reading, run: seq<Timed>)
    requires InTime(begin, run) && Run(begin, run).Some?
    ensures var s := Run(begin, run).value; Reported(s.reports) + s.scanned == Given(run)
    decreases |run|
  {
    if run != [] {
      var n := |run| - 1;
      StatisticsKept(begin, run[..n]);
      var s := Run(begin, run[..n]).value;
      StepKeeps(s, run[n].event, LastReading(begin, run[..n]), run[n].reading);
      StepReports(s, run[n].event, run[n].reading);
    }
  }

  lemma {:induction false} StepReports(s: State, e: Event, r: Reading)
    requires Enabled(s, e, r)
    ensures Reported(Step(s, e, r).reports) + Step(s, e, r).scanned == Reported(s.reports) + s.scanned + StatsIn(e)
  {
  }

  /** One test of a drop conserves statistics. */
  lemma {:induction false} ForwardReports(s: State, i: nat, before: Reading, r: Reading)
    requires Consistent(s, before) && NoEarlier(before, r)
    ensures var s' := ForwardStep(s, i, before, r); Reported(s'.reports) + s'.scanned == Reported(s.reports) + s.scanned
  {
  }

  /** A drop, from whatever stage, ends tracked and empty; a tracker already tracked is left alone. */
  lemma {:induction false} ForwardTracks(s: State, i: nat, before: Reading, rs: seq<Reading>)
    requires Follows(before, rs) && i <= 5 && Consistent(s, Previous(before, rs, i)) && Past(s.stage, i)
    ensures var d := Forward(s, i, before, rs);
            && d.stage.Tracked?
            && (if s.stage.Tracked? then d == s else d.scanned == 0)
            && Reported(d.reports) + d.scanned == Reported(s.reports) + s.scanned
    decreases 5 - i
  {
    if i < 5 {
      ForwardPasses(s, i, Previous(before, rs, i), rs[i]);
      ForwardSettles(s, i, Previous(before, rs, i), rs[i]);
      ForwardReports(s, i, Previous(before, rs, i), rs[i]);
      ForwardTracks(ForwardStep(s, i, Previous(before, rs, i), rs[i]), i + 1, before, rs);
    }
  }

  /** Every run, dropped at any point, makes exactly one report: its wait is schedule plus snapshot
      wait, and wait, build and item time together fit into the lifetime. The report holds every
      statistic given if and only if none was collected after it was made. */
  lemma {:induction false} ReportedOnce(begin: Reading, run: seq<Timed>, rs: seq<Reading>)
    requires InTime(begin, run) && Run(begin, run).Some? && Follows(LastReading(begin, run), rs)
    ensures var s := Run(begin, run).value;
            var d := Dropped(s, LastReading(begin, run), rs);
            && d.stage.Tracked? && |d.reports| == 1 && Fits(d.reports[0].times, d.reports[0].times.lifetime)
            && (s.stage.Tracked? ==> d == s)
            && (d.reports[0].scanned == Given(run) <==> !s.stage.Tracked? || s.scanned == 0)
  {
    var s, before := Run(begin, run).value, LastReading(begin, run);
    ForwardTracks(s, 0, before, rs);
    StatisticsKept(begin, run);
    var d := Dropped(s, before, rs);
    assert d.reports[..0] == [];
    assert Reported(d.reports) == d.reports[0].scanned;
  }

  lemma {:induction false} RunOn(begin: Reading, run: seq<Timed>, next: Timed)
    requires InTime(begin, run) && Run(begin, run).Some? && NoEarlier(LastReading(begin, run), next.reading)
    requires Allowed(Run(begin, run).value.stage, next.event)
    ensures InTime(begin, run + [next])
    ensures Enabled(Run(begin, run).value, next.event, next.reading)
    ensures Run(begin, run + [next]) == Some(Step(Run(begin, run).value, next.event, next.reading))
    ensures Given(run + [next]) == Given(run) + StatsIn(next.event)
  {
    assert (run + [next])[..|run|] == run;
    StepKeeps(Run(begin, run).value, next.event, LastReading(begin, run), next.reading);
  }

  /** Statistics collected once the report is made are in no report. */
  lemma {:induction false} CollectedLateExample(r: Reading) returns (run: seq<Timed>)
    ensures InTime(r, run) && Run(r, run).Some? && Given(run) == 1
    ensures var s := Run(r, run).value;
            s.stage.Tracked? && |s.reports| == 1 && s.reports[0].scanned == 0 && s.scanned == 1
  {
    var events := [OnScheduled, OnSnapshotFinished, OnBeginAllItems, OnFinishAllItems, Collect(1)];
    run := [];
    var i := 0;
    while i < |events|
      invariant 0 <= i <= |events| && |run| == i && InTime(r, run) && LastReading(r, run) == r && Run(r, run).Some?
      invariant Given(run) == if i < 5 then 0 else 1
      invariant var s := Run(r, run).value;
                match i
                case 0 => s.stage.Initialized? && s.scanned == 0 && s.reports == []
                case 1 => s.stage.Scheduled? && s.scanned == 0 && s.reports == []
                case 2 => s.stage.SnapshotRetrieved? && s.scanned == 0 && s.reports == []
                case 3 => s.stage.AllItemsBegan? && s.scanned == 0 && s.reports == []
                case _ => s.stage.Tracked? && |s.reports| == 1 && s.reports[0].scanned == 0 && s.scanned == i - 4
    {
      RunOn(r, run, Timed(events[i], r));
      run := run + [Timed(events[i], r)];
      i := i + 1;
    }
  }
}
