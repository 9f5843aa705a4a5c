/** Assembler, compute stage and applier in a row, over any run. */
module Pipeline {
  import opened Wrappers
  import opened Radar
  import opened Grid
  import opened Assembly
  import opened AssemblyRuns
  import opened Compute
  import opened DisplayState

  /** The applier is fed exactly the compute stage's updates, at whatever times. */
  predicate Feeds(updates: seq<Update>, actions: seq<Action>) {
    |actions| == |updates| && forall k :: 0 <= k < |updates| ==> actions[k].Updated? && actions[k].update == updates[k]
  }

  lemma {:induction false} EpochFromActions(actions: seq<Action>)
    ensures forall a :: a in EpochOf(actions).sweeps || a in EpochOf(actions).derived ==> a in actions
  {
    if actions != [] {
      EpochFromActions(actions[..|actions| - 1]);
      assert forall a :: a in actions[..|actions| - 1] ==> a in actions;
      assert actions[|actions| - 1] in actions;
    }
  }

  /** The update carries the sweep closed at `k`, gridded. */
  ghost predicate CarriesSweep(log: seq<Event>, stages: Stages, k: nat, u: Update) {
    && k < |log| && log[k].SweepClosed? && u.SweepGridded?
    && u.elevationNumber == log[k].sweep.elevationNumber && u.elevationDeg == log[k].sweep.elevationDeg
    && u.volume == log[k].volume
    && u.vcpNumber == log[k].vcpNumber && u.grids == stages.grid(log[k].sweep)
  }

  /** The update carries what is derived from the volume completed at `k`. */
  ghost predicate CarriesDerived(log: seq<Event>, stages: Stages, k: nat, u: Update) {
    && k < |log| && log[k].VolumeClosed? && log[k].scan.status.Complete? && u.DerivedComputed?
    && u.volume == IdOfScan(log[k].scan)
    && u.grids == stages.derive(Newest(TiltsOf(log[k].scan.sweeps, stages)))
  }

  lemma {:induction false} UpdateSource(log: seq<Event>, stages: Stages, u: Update)
    requires LogOk(log) && u in HandleAll(log, stages).updates
    ensures u.SweepGridded? ==> exists k :: CarriesSweep(log, stages, k, u)
    ensures u.DerivedComputed? ==> exists k :: CarriesDerived(log, stages, k, u)
  {
    var n := |log| - 1;
    var front := log[..n];
    var before := HandleAll(front, stages);
    if u in before.updates {
      UpdateSource(front, stages, u);
      assert forall k :: 0 <= k < n ==> log[k] == front[k];
      if u.SweepGridded? {
        var k :| CarriesSweep(front, stages, k, u);
        assert CarriesSweep(log, stages, k, u);
      }
      if u.DerivedComputed? {
        var k :| CarriesDerived(front, stages, k, u);
        assert CarriesDerived(log, stages, k, u);
      }
    } else {
      TiltsFollowLog(front, stages);
      assert u in Handle(before.tilts, log[n], stages).updates;
      assert u.SweepGridded? ==> CarriesSweep(log, stages, n, u);
      assert u.DerivedComputed? ==> CarriesDerived(log, stages, n, u);
    }
  }

  ghost predicate SweepFromRun(log: seq<Event>, stages: Stages, e: nat, shown: DisplaySweep) {
    exists k, u :: CarriesSweep(log, stages, k, u) && shown.elevationNumber == e == u.elevationNumber
                   && shown.elevationDeg == u.elevationDeg && shown.volume == u.volume
                   && shown.vcpNumber == u.vcpNumber && shown.grids == u.grids
  }

  ghost predicate DerivedFromRun(log: seq<Event>, stages: Stages, s: State) {
    exists k, u :: CarriesDerived(log, stages, k, u) && s.derivedVolume == Some(u.volume)
      && s.derived == ByProduct(u.grids)
  }

  lemma SweepHasSource(log: seq<Event>, stages: Stages, site: string, actions: seq<Action>, e: nat)
    requires LogOk(log) && Feeds(HandleAll(log, stages).updates, actions)
    requires e in After(site, actions).sweeps
    ensures SweepFromRun(log, stages, e, After(site, actions).sweeps[e])
  {
    var shown, epoch := After(site, actions).sweeps[e], EpochOf(actions);
    DisplayIsNewest(site, actions, e);
    EpochFromActions(actions);
    hide HandleAll, After, EpochOf, LogOk;
    var i: nat :| IsNewest(epoch.sweeps, i, OfElevation(e), VolumeOf)
                  && epoch.sweeps[i].Updated? && epoch.sweeps[i].update.SweepGridded?
                  && shown == Shown(epoch.sweeps[i].update, epoch.sweeps[i].now);
    var u := epoch.sweeps[i].update;
    assert OfElevation(e)(epoch.sweeps[i]);
    assert epoch.sweeps[i] in actions;
    UpdateSource(log, stages, u);
  }

  lemma DerivedHasSource(log: seq<Event>, stages: Stages, site: string, actions: seq<Action>)
    requires LogOk(log) && Feeds(HandleAll(log, stages).updates, actions)
    requires After(site, actions).derived != map[]
    ensures DerivedFromRun(log, stages, After(site, actions))
  {
    var s, epoch := After(site, actions), EpochOf(actions);
    DisplayIsNewest(site, actions, 0);
    EpochFromActions(actions);
    hide HandleAll, After, EpochOf, LogOk;
    var i: nat :| IsNewest(epoch.derived, i, AnyAction(), VolumeOf)
                  && epoch.derived[i].Updated? && epoch.derived[i].update.DerivedComputed?
                  && s.derived == ByProduct(epoch.derived[i].update.grids)
                  && s.derivedVolume == Some(epoch.derived[i].update.volume);
    assert epoch.derived[i] in actions;
    UpdateSource(log, stages, epoch.derived[i].update);
  }

  /**
   * End to end. After any run, each displayed sweep is the gridding of a sweep the
   * assembler closed, under that sweep's elevation and volume; and the displayed derived
   * products come from the tilts of one completed volume, the one they are labelled with.
   */
  lemma DisplayComesFromRun(inputs: seq<Input>, watchdog: nat, stages: Stages, site: string, actions: seq<Action>,
                            e: nat)
    requires Feeds(HandleAll(RunAll(inputs, watchdog).log, stages).updates, actions)
    ensures var log, s := RunAll(inputs, watchdog).log, After(site, actions);
            && (e in s.sweeps ==> SweepFromRun(log, stages, e, s.sweeps[e]))
            && (s.derived != map[] ==> DerivedFromRun(log, stages, s))
  {
    EveryRun(inputs, watchdog, 0);
    var log := RunAll(inputs, watchdog).log;
    if e in After(site, actions).sweeps {
      SweepHasSource(log, stages, site, actions, e);
    }
    if After(site, actions).derived != map[] {
      DerivedHasSource(log, stages, site, actions);
    }
  }
}
