/**
 * Nothing that ought to be displayed is missing: the other direction of `Pipeline`,
 * which finds a source for everything that is.
 */
module PipelineShows {
  import opened Wrappers
  import opened Bytes
  import opened Radar
  import opened Grid
  import opened Assembly
  import opened AssemblyRuns
  import opened Compute
  import opened ComputeSends
  import opened DisplayState
  import opened Pipeline

  // ---------------------------------------------------------------- what is due, read from the event log

  /** The coverage pattern of the last sweep closed. */
  function LastVcp(log: seq<Event>): Option<nat> {
    if log == [] then None
    else if log[|log| - 1].SweepClosed? then Some(log[|log| - 1].vcpNumber)
    else LastVcp(log[..|log| - 1])
  }

  /** The event is a sweep of another pattern than the one closed before it. */
  predicate Switches(before: seq<Event>, ev: Event) {
    ev.SweepClosed? && LastVcp(before).Some? && LastVcp(before).value != ev.vcpNumber
  }

  /** The volumes of the sweeps of elevation `e` closed since the last change of pattern. */
  function SweepsDue(log: seq<Event>, e: nat): seq<VolumeId> {
    if log == [] then []
    else
      var before, ev := log[..|log| - 1], log[|log| - 1];
      (if Switches(before, ev) then [] else SweepsDue(before, e))
      + if ev.SweepClosed? && ev.sweep.elevationNumber == e then [ev.volume] else []
  }

  /** The complete volumes, since the last change of pattern, from which something is derived. */
  function SetsDue(log: seq<Event>, stages: Stages): seq<VolumeId> {
    if log == [] then []
    else
      var before, ev := log[..|log| - 1], log[|log| - 1];
      (if Switches(before, ev) then [] else SetsDue(before, stages))
      + if ev.VolumeClosed? && ev.scan.status.Complete? && Derived(ev.scan, stages) != []
        then [VolumeId(ev.scan.julianDate, ev.scan.scanTimeMs)] else []
  }

  /** The last volume completed, whatever has happened since. */
  function LastComplete(log: seq<Event>): Option<VolumeScan> {
    if log == [] then None
    else
      match log[|log| - 1]
      case VolumeClosed(scan) => if scan.status.Complete? then Some(scan) else LastComplete(log[..|log| - 1])
      case _ => LastComplete(log[..|log| - 1])
  }

  // ---------------------------------------------------------------- what is shown of it

  /** What is shown is one of those due, and none of them is newer. */
  predicate NewestOf(shown: Option<VolumeId>, due: seq<VolumeId>) {
    if due == [] then shown == None
    else shown.Some? && shown.value in due && forall i :: 0 <= i < |due| ==> NotNewer(due[i], shown.value)
  }

  function ShownAt(s: State, e: nat): Option<VolumeId> {
    if e in s.sweeps then Some(s.sweeps[e].volume) else None
  }

  predicate Summarises(s: Option<Summary>, scan: Option<VolumeScan>) {
    match scan
    case None => s == None
    case Some(v) =>
      s == Some(Summary(VolumeId(v.julianDate, v.scanTimeMs), v.vcpNumber, v.status, v.latitude, v.longitude,
                        v.siteAmslM))
  }

  predicate Shows(log: seq<Event>, stages: Stages, s: State, e: nat) {
    && s.currentVcp == LastVcp(log)
    && NewestOf(ShownAt(s, e), SweepsDue(log, e))
    && NewestOf(s.derivedVolume, SetsDue(log, stages))
    && Summarises(s.lastComplete, LastComplete(log))
  }

  // ---------------------------------------------------------------- one event

  lemma NewestSnoc(shown: Option<VolumeId>, due: seq<VolumeId>, v: VolumeId)
    requires NewestOf(shown, due)
    ensures NewestOf(if shown.Some? && !NotNewer(shown.value, v) then shown else Some(v), due + [v])
  {
  }

  lemma LogSnoc(log: seq<Event>, ev: Event, stages: Stages, e: nat)
    ensures LastVcp(log + [ev]) == if ev.SweepClosed? then Some(ev.vcpNumber) else LastVcp(log)
    ensures SweepsDue(log + [ev], e)
            == (if Switches(log, ev) then [] else SweepsDue(log, e))
               + if ev.SweepClosed? && ev.sweep.elevationNumber == e then [ev.volume] else []
    ensures SetsDue(log + [ev], stages)
            == (if Switches(log, ev) then [] else SetsDue(log, stages))
               + if ev.VolumeClosed? && ev.scan.status.Complete? && Derived(ev.scan, stages) != []
                 then [VolumeId(ev.scan.julianDate, ev.scan.scanTimeMs)] else []
    ensures LastComplete(log + [ev])
            == if ev.VolumeClosed? && ev.scan.status.Complete? then Some(ev.scan) else LastComplete(log)
  {
    hide Switches, Derived;
    assert (log + [ev])[..|log|] == log;
  }

  /** A gridded sweep, applied at whatever time. */
  lemma SweepShows(log: seq<Event>, ev: Event, stages: Stages, s: State, now: nat, e: nat)
    requires Shows(log, stages, s, e) && ev.SweepClosed?
    ensures var u := SweepGridded(ev.sweep.elevationNumber, ev.sweep.elevationDeg, ev.volume, ev.vcpNumber,
                                  stages.grid(ev.sweep));
            Shows(log + [ev], stages, Apply(s, u, now).0, e)
  {
    LogSnoc(log, ev, stages, e);
    hide LastVcp, SweepsDue, SetsDue, LastComplete, NotNewer, Summarises;
    var kept := if Switches(log, ev) then [] else SweepsDue(log, e);
    var shown := if Switches(log, ev) then None else ShownAt(s, e);
    assert NewestOf(shown, kept);
    NewestSnoc(shown, kept, ev.volume);
    assert kept + [] == kept;
    var sets := if Switches(log, ev) then [] else SetsDue(log, stages);
    assert sets + [] == sets;
  }

  /** The updates that answer a closed volume. */
  lemma VolumeShows(log: seq<Event>, ev: Event, stages: Stages, s: State, now: nat, later: nat, e: nat)
    requires Shows(log, stages, s, e) && ev.VolumeClosed?
    ensures var scan := ev.scan;
            var s1 := if scan.status.Complete? && Derived(scan, stages) != []
                      then Apply(s, DerivedComputed(IdOfScan(scan), scan.vcpNumber, Derived(scan, stages)), now).0
                      else s;
            Shows(log + [ev], stages, Apply(s1, ClosedVolume(SummaryOf(scan)), later).0, e)
  {
    LogSnoc(log, ev, stages, e);
    hide LastVcp, SweepsDue, SetsDue, LastComplete, NotNewer, ByProduct, Derived;
    NewestSnoc(s.derivedVolume, SetsDue(log, stages), IdOfScan(ev.scan));
    assert SweepsDue(log, e) + [] == SweepsDue(log, e) && SetsDue(log, stages) + [] == SetsDue(log, stages);
  }

  lemma NoticeShows(log: seq<Event>, ev: Event, stages: Stages, s: State, e: nat)
    requires Shows(log, stages, s, e) && !ev.SweepClosed? && !ev.VolumeClosed?
    ensures Shows(log + [ev], stages, s, e)
  {
    LogSnoc(log, ev, stages, e);
    hide LastVcp, SweepsDue, SetsDue, LastComplete, NewestOf, Summarises, Derived;
    assert SweepsDue(log, e) + [] == SweepsDue(log, e) && SetsDue(log, stages) + [] == SetsDue(log, stages);
  }

  // ---------------------------------------------------------------- over a log

  lemma AfterOne(site: string, actions: seq<Action>, a: Action)
    ensures After(site, actions + [a]) == Act(After(site, actions), a)
  {
    assert (actions + [a])[..|actions|] == actions;
  }

  /** The applier's actions, split where the last event's answer begins. */
  lemma AnswersApplied(site: string, actions: seq<Action>, n: nat)
    requires n <= |actions| <= n + 2
    ensures |actions| == n ==> actions == actions[..n]
    ensures |actions| == n + 1 ==> After(site, actions) == Act(After(site, actions[..n]), actions[n])
    ensures |actions| == n + 2 ==>
              After(site, actions) == Act(Act(After(site, actions[..n]), actions[n]), actions[n + 1])
  {
    hide Act;
    if |actions| == n + 1 {
      AfterOne(site, actions[..n], actions[n]);
      assert actions[..n] + [actions[n]] == actions;
    } else if |actions| == n + 2 {
      AfterOne(site, actions[..n], actions[n]);
      AfterOne(site, actions[..n] + [actions[n]], actions[n + 1]);
      assert actions[..n] + [actions[n]] + [actions[n + 1]] == actions;
    }
  }

  /** The applier is fed the answer to one event. */
  lemma AnswerShows(log: seq<Event>, ev: Event, stages: Stages, tilts: seq<SweepGrid>, s: State, actions: seq<Action>,
                    e: nat)
    requires Shows(log, stages, s, e) && Feeds(Handle(tilts, ev, stages).updates, actions)
    requires ev.VolumeClosed? ==> tilts == Newest(TiltsOf(ev.scan.sweeps, stages))
    ensures 1 <= |actions| <= 2
    ensures var s1 := Act(s, actions[0]);
            Shows(log + [ev], stages, if |actions| == 1 then s1 else Act(s1, actions[1]), e)
  {
    hide Shows, Apply, TiltsOf, Newest;
    var us := Handle(tilts, ev, stages).updates;
    assert forall k :: 0 <= k < |us| ==> actions[k].Updated? && actions[k].update == us[k];
    match ev {
      case SweepClosed(_, _, _) => SweepShows(log, ev, stages, s, actions[0].now, e);
      case VolumeClosed(scan) => VolumeShows(log, ev, stages, s, actions[0].now, actions[|us| - 1].now, e);
      case LateRadialsDiscarded(_) =>
        NoticeShows(log, ev, stages, s, e);
        InfoIgnored(s, actions[0]);
      case MissingStartChunk =>
        NoticeShows(log, ev, stages, s, e);
        InfoIgnored(s, actions[0]);
    }
  }

  lemma InfoIgnored(s: State, a: Action)
    requires a.Updated? && a.update.Info?
    ensures Act(s, a) == s
  {
  }

  lemma {:induction false} AllShown(log: seq<Event>, stages: Stages, site: string, actions: seq<Action>, e: nat)
    requires LogOk(log) && Feeds(HandleAll(log, stages).updates, actions)
    ensures Shows(log, stages, After(site, actions), e)
  {
    hide *;
    if log == [] {
      NothingShown(stages, site, actions, e);
    } else {
      var before, ev := log[..|log| - 1], log[|log| - 1];
      var h := HandleAll(before, stages);
      var n, us := |h.updates|, Handle(h.tilts, ev, stages).updates;
      OneMoreEvent(log, stages);
      FeedsSplit(h.updates, us, actions);
      AllShown(before, stages, site, actions[..n], e);
      AnswerShows(before, ev, stages, h.tilts, After(site, actions[..n]), actions[n..], e);
      AnswersApplied(site, actions, n);
      assert log == before + [ev];
    }
  }

  lemma NothingShown(stages: Stages, site: string, actions: seq<Action>, e: nat)
    requires Feeds(HandleAll([], stages).updates, actions)
    ensures Shows([], stages, After(site, actions), e)
  {
  }

  lemma FeedsSplit(a: seq<Update>, b: seq<Update>, actions: seq<Action>)
    requires Feeds(a + b, actions)
    ensures |actions| >= |a| && Feeds(a, actions[..|a|]) && Feeds(b, actions[|a|..])
  {
    assert forall k :: 0 <= k < |b| ==> (a + b)[|a| + k] == b[k];
  }

  /**
   * End to end. After any run, an elevation is displayed exactly when a sweep of it has
   * been closed since the last change of coverage pattern, and then one of the newest of
   * those volumes; derived products are displayed exactly when a volume completed since
   * then has some, of the newest such; and the summary shown is that of the last volume
   * completed.
   */
  lemma ClosedIsShown(inputs: seq<Input>, watchdog: nat, stages: Stages, site: string, actions: seq<Action>, e: nat)
    requires Feeds(HandleAll(RunAll(inputs, watchdog).log, stages).updates, actions)
    ensures Shows(RunAll(inputs, watchdog).log, stages, After(site, actions), e)
  {
    EveryRun(inputs, watchdog, 0);
    AllShown(RunAll(inputs, watchdog).log, stages, site, actions, e);
  }
}
