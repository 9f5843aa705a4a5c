/**
 * The shared radar state and its applier (crates/radar-workstation/src/state/mod.rs and
 * apply.rs).
 */
module DisplayState {
  import opened Wrappers
  import opened Bytes
  import opened Radar
  import opened Grid
  import opened Assembly
  import opened Compute

  datatype DisplaySweep = DisplaySweep(
    elevationNumber: nat, elevationDeg: real, volume: VolumeId, vcpNumber: nat, received: nat, grids: seq<SweepGrid>)

  datatype State = State(
    site: string, sweeps: map<nat, DisplaySweep>, derived: map<DisplayProduct, SweepGrid>,
    derivedVolume: Option<VolumeId>, currentVcp: Option<nat>, lastComplete: Option<Summary>, revision: nat)

  function InitialState(site: string): State {
    State(site, map[], map[], None, None, None, 0)
  }

  /** What a reader of the state is shown, apart from the revision. */
  datatype Snapshot = Snapshot(
    site: string, sweeps: map<nat, DisplaySweep>, derived: map<DisplayProduct, SweepGrid>,
    lastComplete: Option<Summary>)

  function SnapshotOf(s: State): Snapshot {
    Snapshot(s.site, s.sweeps, s.derived, s.lastComplete)
  }

  function ByProduct(grids: seq<SweepGrid>): map<DisplayProduct, SweepGrid> {
    if grids == [] then map[]
    else ByProduct(grids[..|grids| - 1])[grids[|grids| - 1].product := grids[|grids| - 1]]
  }

  /** The last of the grids that is of product `p`. */
  predicate LastOf(grids: seq<SweepGrid>, i: nat, p: DisplayProduct) {
    i < |grids| && grids[i].product == p && forall j :: i < j < |grids| ==> grids[j].product != p
  }

  /** Each product is shown by the last of the grids that is of it, and no other product is shown. */
  lemma {:induction false} ByProductIsLast(grids: seq<SweepGrid>, p: DisplayProduct) returns (at: Option<nat>)
    ensures at.Some? ==> LastOf(grids, at.value, p) && p in ByProduct(grids) && ByProduct(grids)[p] == grids[at.value]
    ensures at.None? ==> p !in ByProduct(grids) && forall i :: 0 <= i < |grids| ==> grids[i].product != p
  {
    if grids == [] {
      at := None;
    } else {
      var n := |grids| - 1;
      at := ByProductIsLast(grids[..n], p);
      ByProductSnoc(grids, p);
      hide ByProduct;
      assert forall j :: 0 <= j < n ==> grids[j] == grids[..n][j];
      if grids[n].product == p {
        at := Some(n);
      }
    }
  }

  lemma ByProductSnoc(grids: seq<SweepGrid>, p: DisplayProduct)
    requires grids != []
    ensures var front, g := ByProduct(grids[..|grids| - 1]), grids[|grids| - 1];
            && (g.product == p ==> p in ByProduct(grids) && ByProduct(grids)[p] == g)
            && (g.product != p ==> (p in ByProduct(grids) <==> p in front)
                                   && (p in front ==> ByProduct(grids)[p] == front[p]))
  {
  }

  // ---------------------------------------------------------------- one update

  function Shown(u: Update, now: nat): DisplaySweep
    requires u.SweepGridded?
  {
    DisplaySweep(u.elevationNumber, u.elevationDeg, u.volume, u.vcpNumber, now, u.grids)
  }

  predicate SwitchesVcp(s: State, vcp: nat) {
    s.currentVcp.Some? && s.currentVcp.value != vcp
  }

  function Apply(s: State, u: Update, now: nat): (State, bool) {
    match u
    case SweepGridded(e, _, volume, vcp, _) =>
      var s1 := (if SwitchesVcp(s, vcp) then s.(sweeps := map[], derived := map[], derivedVolume := None) else s)
                .(currentVcp := Some(vcp));
      if e in s1.sweeps && !NotNewer(s1.sweeps[e].volume, volume) then (s1, false)
      else (s1.(sweeps := s1.sweeps[e := Shown(u, now)], revision := s1.revision + 1), true)
    case DerivedComputed(volume, _, grids) =>
      if s.derivedVolume.Some? && !NotNewer(s.derivedVolume.value, volume) then (s, false)
      else (s.(derived := ByProduct(grids), derivedVolume := Some(volume), revision := s.revision + 1), true)
    case ClosedVolume(summary) =>
      if !summary.status.Complete? then (s, false)
      else (s.(lastComplete := Some(summary), revision := s.revision + 1), true)
    case Info(_) => (s, false)
  }

  function Reset(s: State, site: string): State {
    InitialState(site).(revision := s.revision + 1)
  }

  class RadarState {
    var site: string
    var sweeps: map<nat, DisplaySweep>
    var derived: map<DisplayProduct, SweepGrid>
    var derivedVolume: Option<VolumeId>
    var currentVcp: Option<nat>
    var lastComplete: Option<Summary>
    var revision: nat

    constructor (site: string)
      ensures View() == InitialState(site)
    {
      this.site := site;
      sweeps, derived, derivedVolume, currentVcp, lastComplete, revision := map[], map[], None, None, None, 0;
    }

    ghost function View(): State
      reads this
    {
      State(site, sweeps, derived, derivedVolume, currentVcp, lastComplete, revision)
    }

    method DoReset(site: string)
      modifies this
      ensures View() == Reset(old(View()), site)
    {
      this.site := site;
      sweeps, derived, derivedVolume, currentVcp, lastComplete := map[], map[], None, None, None;
      revision := revision + 1;
    }

    method DoApply(u: Update, now: nat) returns (changed: bool)
      modifies this
      ensures View() == Apply(old(View()), u, now).0
      ensures changed == Apply(old(View()), u, now).1
    {
      match u {
        case SweepGridded(e, deg, volume, vcp, grids) =>
          if currentVcp.Some? && currentVcp.value != vcp {
            sweeps, derived, derivedVolume := map[], map[], None;
          }
          currentVcp := Some(vcp);
          if e in sweeps && !NotNewer(sweeps[e].volume, volume) {
            return false;
          }
          sweeps := sweeps[e := DisplaySweep(e, deg, volume, vcp, now, grids)];
          revision := revision + 1;
          return true;
        case DerivedComputed(volume, _, grids) =>
          if derivedVolume.Some? && !NotNewer(derivedVolume.value, volume) {
            return false;
          }
          derived := map[];
          for i := 0 to |grids|
            invariant derived == ByProduct(grids[..i])
            invariant View() == old(View()).(derived := derived)
          {
            assert grids[..i + 1][..i] == grids[..i];
            derived := derived[grids[i].product := grids[i]];
          }
          assert grids[..|grids|] == grids;
          derivedVolume := Some(volume);
          revision := revision + 1;
          return true;
        case ClosedVolume(summary) =>
          if !summary.status.Complete? {
            return false;
          }
          lastComplete := Some(summary);
          revision := revision + 1;
          return true;
        case Info(_) =>
          return false;
      }
    }
  }

  // ---------------------------------------------------------------- runs

  datatype Action = Updated(update: Update, now: nat) | WasReset(site: string)

  function Act(s: State, a: Action): State {
    match a
    case Updated(u, now) => Apply(s, u, now).0
    case WasReset(site) => Reset(s, site)
  }

  function After(site: string, actions: seq<Action>): State {
    if actions == [] then InitialState(site)
    else Act(After(site, actions[..|actions| - 1]), actions[|actions| - 1])
  }

  /** The revision moves with the data: one step up, or nothing changed at all. */
  lemma ActBumps(s: State, a: Action)
    requires s.sweeps != map[] ==> s.currentVcp.Some?
    ensures Act(s, a).revision == s.revision || Act(s, a).revision == s.revision + 1
    ensures Act(s, a).revision == s.revision ==> SnapshotOf(Act(s, a)) == SnapshotOf(s)
    ensures a.Updated? ==> (Apply(s, a.update, a.now).1 <==> Act(s, a).revision == s.revision + 1)
  {
  }

  /** Every displayed sweep carries the current VCP, under its own elevation number. */
  predicate Coherent(s: State) {
    && (s.sweeps != map[] ==> s.currentVcp.Some?)
    && forall e :: e in s.sweeps ==> s.sweeps[e].elevationNumber == e && Some(s.sweeps[e].vcpNumber) == s.currentVcp
  }

  lemma {:induction false} AlwaysCoherent(site: string, actions: seq<Action>)
    ensures Coherent(After(site, actions))
  {
    if actions != [] {
      AlwaysCoherent(site, actions[..|actions| - 1]);
    }
  }

  lemma {:induction false} RevisionGrows(site: string, actions: seq<Action>, i: nat)
    requires i <= |actions|
    ensures After(site, actions[..i]).revision <= After(site, actions).revision
    ensures After(site, actions[..i]).revision == After(site, actions).revision ==>
              SnapshotOf(After(site, actions[..i])) == SnapshotOf(After(site, actions))
  {
    if i == |actions| {
      assert actions[..i] == actions;
    } else {
      var front := actions[..|actions| - 1];
      assert front[..i] == actions[..i];
      RevisionGrows(site, front, i);
      AlwaysCoherent(site, front);
      ActBumps(After(site, front), actions[|actions| - 1]);
    }
  }

  /** Two readers who see the same revision in one run see the same data. */
  lemma SameRevisionSameData(site: string, actions: seq<Action>, i: nat, j: nat)
    requires i <= |actions| && j <= |actions|
    requires After(site, actions[..i]).revision == After(site, actions[..j]).revision
    ensures SnapshotOf(After(site, actions[..i])) == SnapshotOf(After(site, actions[..j]))
  {
    if i <= j {
      assert actions[..j][..i] == actions[..i];
      RevisionGrows(site, actions[..j], i);
    } else {
      assert actions[..i][..j] == actions[..j];
      RevisionGrows(site, actions[..i], j);
    }
  }

  /** The station shown is the one last reset to. */
  lemma {:induction false} SiteIsLastReset(site: string, actions: seq<Action>, i: nat)
    requires i < |actions| && actions[i].WasReset?
    requires forall j :: i < j < |actions| ==> !actions[j].WasReset?
    ensures After(site, actions).site == actions[i].site
    decreases |actions|
  {
    if i < |actions| - 1 {
      SiteIsLastReset(site, actions[..|actions| - 1], i);
    }
  }

  /** A displayed sweep carries the angle it was sent with and the time it was applied at. */
  lemma {:induction false} ReceivedWhenApplied(site: string, actions: seq<Action>, e: nat)
    requires e in After(site, actions).sweeps
    ensures exists i :: 0 <= i < |actions| && actions[i].Updated? && actions[i].update.SweepGridded?
                        && actions[i].now == After(site, actions).sweeps[e].received
                        && actions[i].update.elevationDeg == After(site, actions).sweeps[e].elevationDeg
  {
    var n := |actions| - 1;
    var front := actions[..n];
    if e in After(site, front).sweeps && After(site, actions).sweeps[e] == After(site, front).sweeps[e] {
      ReceivedWhenApplied(site, front, e);
      assert forall i :: 0 <= i < n ==> front[i] == actions[i];
    }
  }

  // ---------------------------------------------------------------- what is displayed, from the history alone

  /** The sweeps gridded since the last reset or change of VCP, and the derived sets since then. */
  datatype Epoch = Epoch(sweeps: seq<Action>, derived: seq<Action>, complete: Option<Summary>)

  function NextEpoch(before: Epoch, a: Action): Epoch {
    if a.WasReset? then Epoch([], [], None)
    else match a.update
      case SweepGridded(_, _, _, vcp, _) =>
        if before.sweeps != [] && VcpOf(before.sweeps[|before.sweeps| - 1]) != vcp
        then Epoch([a], [], before.complete)
        else before.(sweeps := before.sweeps + [a])
      case DerivedComputed(_, _, _) => before.(derived := before.derived + [a])
      case ClosedVolume(summary) => if summary.status.Complete? then before.(complete := Some(summary)) else before
      case Info(_) => before
  }

  function VcpOf(a: Action): nat {
    if a.Updated? && a.update.SweepGridded? then a.update.vcpNumber else 0
  }

  function EpochOf(actions: seq<Action>): (r: Epoch)
    ensures forall a :: a in r.sweeps ==> a.Updated? && a.update.SweepGridded?
    ensures forall a :: a in r.derived ==> a.Updated? && a.update.DerivedComputed?
  {
    if actions == [] then Epoch([], [], None)
    else NextEpoch(EpochOf(actions[..|actions| - 1]), actions[|actions| - 1])
  }

  /** The latest of the newest: no other is of a later volume, and none after it is of as late a one. */
  ghost predicate IsNewest(items: seq<Action>, i: nat, takes: Action -> bool, volume: Action -> VolumeId) {
    && i < |items| && takes(items[i])
    && (forall j :: 0 <= j < |items| && takes(items[j]) ==> NotNewer(volume(items[j]), volume(items[i])))
    && (forall j :: i < j < |items| && takes(items[j]) ==> volume(items[j]) != volume(items[i]))
  }

  function VolumeOf(a: Action): VolumeId {
    if a.Updated? && (a.update.SweepGridded? || a.update.DerivedComputed?) then a.update.volume else VolumeId(0, 0)
  }

  function OfElevation(e: nat): Action -> bool {
    (a: Action) => a.Updated? && a.update.SweepGridded? && a.update.elevationNumber == e
  }

  function AnyAction(): Action -> bool {
    (a: Action) => true
  }

  lemma NewestSnoc(items: seq<Action>, i: nat, a: Action, takes: Action -> bool)
    requires IsNewest(items, i, takes, VolumeOf)
    ensures !takes(a) || !NotNewer(VolumeOf(items[i]), VolumeOf(a)) ==> IsNewest(items + [a], i, takes, VolumeOf)
    ensures takes(a) && NotNewer(VolumeOf(items[i]), VolumeOf(a)) ==> IsNewest(items + [a], |items|, takes, VolumeOf)
  {
    var all := items + [a];
    assert forall j :: 0 <= j < |items| ==> all[j] == items[j];
    assert all[|items|] == a;
  }

  /** The display agrees with the epoch for elevation `e`. */
  ghost predicate ShowsNewest(s: State, epoch: Epoch, e: nat) {
    && (e in s.sweeps <==> exists i :: 0 <= i < |epoch.sweeps| && OfElevation(e)(epoch.sweeps[i]))
    && (e in s.sweeps ==>
          exists i: nat :: IsNewest(epoch.sweeps, i, OfElevation(e), VolumeOf)
                           && epoch.sweeps[i].Updated? && epoch.sweeps[i].update.SweepGridded?
                           && s.sweeps[e] == Shown(epoch.sweeps[i].update, epoch.sweeps[i].now))
  }

  ghost predicate ShowsNewestDerived(s: State, epoch: Epoch) {
    if epoch.derived == [] then s.derived == map[] && s.derivedVolume == None
    else
      exists i: nat :: IsNewest(epoch.derived, i, AnyAction(), VolumeOf)
                       && epoch.derived[i].Updated? && epoch.derived[i].update.DerivedComputed?
                       && s.derived == ByProduct(epoch.derived[i].update.grids)
                       && s.derivedVolume == Some(epoch.derived[i].update.volume)
  }

  predicate SameVcp(s: State, epoch: Epoch) {
    if epoch.sweeps == [] then s.currentVcp == None
    else
      var last := epoch.sweeps[|epoch.sweeps| - 1];
      last.Updated? && last.update.SweepGridded? && s.currentVcp == Some(last.update.vcpNumber)
  }

  lemma SweepShown(s: State, epoch: Epoch, a: Action, e: nat)
    requires a.Updated? && a.update.SweepGridded? && !SwitchesVcp(s, a.update.vcpNumber)
    requires ShowsNewest(s, epoch, e)
    ensures ShowsNewest(Act(s, a), epoch.(sweeps := epoch.sweeps + [a]), e)
  {
    var items := epoch.sweeps;
    var all := items + [a];
    var s' := Act(s, a);
    assert all[|items|] == a;
    assert forall j :: 0 <= j < |items| ==> all[j] == items[j];
    if e in s.sweeps {
      var i: nat :| IsNewest(items, i, OfElevation(e), VolumeOf)
                    && items[i].Updated? && items[i].update.SweepGridded?
                    && s.sweeps[e] == Shown(items[i].update, items[i].now);
      NewestSnoc(items, i, a, OfElevation(e));
      assert all[i] == items[i];
      assert OfElevation(e)(all[i]);
    } else if a.update.elevationNumber == e {
      assert OfElevation(e)(all[|items|]);
      assert IsNewest(all, |items|, OfElevation(e), VolumeOf);
    }
  }

  lemma DerivedShown(s: State, epoch: Epoch, a: Action)
    requires a.Updated? && a.update.DerivedComputed?
    requires ShowsNewestDerived(s, epoch)
    ensures ShowsNewestDerived(Act(s, a), epoch.(derived := epoch.derived + [a]))
  {
    var items := epoch.derived;
    var all := items + [a];
    if items == [] {
      assert IsNewest(all, 0, AnyAction(), VolumeOf);
    } else {
      var i: nat :| IsNewest(items, i, AnyAction(), VolumeOf)
                    && items[i].Updated? && items[i].update.DerivedComputed?
                    && s.derived == ByProduct(items[i].update.grids)
                    && s.derivedVolume == Some(items[i].update.volume);
      NewestSnoc(items, i, a, AnyAction());
      assert all[i] == items[i] && all[|items|] == a;
    }
  }

  /**
   * What is displayed after any run is settled by the history alone: per elevation the
   * newest sweep since the last reset or change of VCP, the newest derived set since
   * then as a whole, and the last complete volume since the last reset.
   */
  lemma {:induction false} DisplayIsNewest(site: string, actions: seq<Action>, e: nat)
    ensures var s, epoch := After(site, actions), EpochOf(actions);
            && ShowsNewest(s, epoch, e)
            && ShowsNewestDerived(s, epoch)
            && SameVcp(s, epoch)
            && s.lastComplete == epoch.complete
  {
    if actions != [] {
      var front, a := actions[..|actions| - 1], actions[|actions| - 1];
      DisplayIsNewest(site, front, e);
      hide Act, After, EpochOf, ShowsNewest, ShowsNewestDerived, SameVcp;
      EpochStep(actions);
      AfterStep(site, actions);
      ActionShown(After(site, front), EpochOf(front), a, e);
    }
  }

  lemma EpochStep(actions: seq<Action>)
    requires actions != []
    ensures EpochOf(actions) == NextEpoch(EpochOf(actions[..|actions| - 1]), actions[|actions| - 1])
  {
  }

  lemma AfterStep(site: string, actions: seq<Action>)
    requires actions != []
    ensures After(site, actions) == Act(After(site, actions[..|actions| - 1]), actions[|actions| - 1])
  {
  }

  lemma ActionShown(s: State, epoch: Epoch, a: Action, e: nat)
    requires ShowsNewest(s, epoch, e) && ShowsNewestDerived(s, epoch) && SameVcp(s, epoch)
    requires s.lastComplete == epoch.complete
    ensures var s', epoch' := Act(s, a), NextEpoch(epoch, a);
            && ShowsNewest(s', epoch', e) && ShowsNewestDerived(s', epoch') && SameVcp(s', epoch')
            && s'.lastComplete == epoch'.complete
  {
    hide ShowsNewest, ShowsNewestDerived, ByProduct, IsNewest, NotNewer;
    var s', epoch' := Act(s, a), NextEpoch(epoch, a);
    if a.WasReset? {
      Cleared(s', epoch', e);
    } else {
      match a.update {
        case SweepGridded(_, _, _, vcp, _) =>
          if SwitchesVcp(s, vcp) {
            OnlyOne(s, a, e, epoch.complete);
            NoDerived(s', epoch');
          } else {
            SweepShown(s, epoch, a, e);
            DerivedUnchanged(s, epoch, s', epoch');
          }
        case DerivedComputed(_, _, _) =>
          DerivedShown(s, epoch, a);
          SweepsUnchanged(s, epoch, s', epoch', e);
        case ClosedVolume(_) =>
          DerivedUnchanged(s, epoch, s', epoch');
          SweepsUnchanged(s, epoch, s', epoch', e);
        case Info(_) =>
      }
    }
  }

  lemma Cleared(s: State, epoch: Epoch, e: nat)
    requires s.sweeps == map[] && s.derived == map[] && s.derivedVolume == None
    requires epoch.sweeps == [] && epoch.derived == []
    ensures ShowsNewest(s, epoch, e) && ShowsNewestDerived(s, epoch)
  {
  }

  lemma NoDerived(s: State, epoch: Epoch)
    requires s.derived == map[] && s.derivedVolume == None && epoch.derived == []
    ensures ShowsNewestDerived(s, epoch)
  {
  }

  lemma SweepsUnchanged(s: State, epoch: Epoch, s': State, epoch': Epoch, e: nat)
    requires s'.sweeps == s.sweeps && epoch'.sweeps == epoch.sweeps
    requires ShowsNewest(s, epoch, e)
    ensures ShowsNewest(s', epoch', e)
  {
  }

  lemma DerivedUnchanged(s: State, epoch: Epoch, s': State, epoch': Epoch)
    requires s'.derived == s.derived && s'.derivedVolume == s.derivedVolume && epoch'.derived == epoch.derived
    requires ShowsNewestDerived(s, epoch)
    ensures ShowsNewestDerived(s', epoch')
  {
  }

  lemma OnlyOne(s: State, a: Action, e: nat, complete: Option<Summary>)
    requires a.Updated? && a.update.SweepGridded? && SwitchesVcp(s, a.update.vcpNumber)
    ensures ShowsNewest(Act(s, a), Epoch([a], [], complete), e)
  {
    if a.update.elevationNumber == e {
      assert OfElevation(e)([a][0]);
      assert IsNewest([a], 0, OfElevation(e), VolumeOf);
    }
  }

  // ---------------------------------------------------------------- monotonicity between changes

  /** `a` neither resets the state nor brings a new VCP. */
  predicate Continues(s: State, a: Action) {
    a.Updated? && (a.update.SweepGridded? ==> !SwitchesVcp(s, a.update.vcpNumber))
  }

  /** Within one VCP no elevation, nor the derived set, ever goes back to an older volume. */
  lemma {:induction false} NeverOlder(site: string, actions: seq<Action>, i: nat, e: nat)
    requires i <= |actions|
    requires forall k :: i <= k < |actions| ==> Continues(After(site, actions[..k]), actions[k])
    ensures var s, s' := After(site, actions[..i]), After(site, actions);
            && (e in s.sweeps ==> e in s'.sweeps && NotNewer(s.sweeps[e].volume, s'.sweeps[e].volume))
            && (s.derivedVolume.Some? ==>
                  s'.derivedVolume.Some? && NotNewer(s.derivedVolume.value, s'.derivedVolume.value))
  {
    if i == |actions| {
      assert actions[..i] == actions;
    } else {
      var front := actions[..|actions| - 1];
      assert front[..i] == actions[..i];
      assert forall k :: 0 <= k < |front| ==> front[..k] == actions[..k] && front[k] == actions[k];
      assert actions[..|actions| - 1] == front && Continues(After(site, front), actions[|actions| - 1]);
      NeverOlder(site, front, i, e);
    }
  }

  /** One step keeps elevation `e` from going back exactly when it stays in the VCP or brings `e` up to date. */
  lemma StepNeverOlderIff(site: string, actions: seq<Action>, a: Action, e: nat)
    requires e in After(site, actions).sweeps
    ensures var s, s' := After(site, actions), Act(After(site, actions), a);
            (e in s'.sweeps && NotNewer(s.sweeps[e].volume, s'.sweeps[e].volume)) <==>
              || Continues(s, a)
              || (OfElevation(e)(a) && NotNewer(s.sweeps[e].volume, a.update.volume))
  {
    AlwaysCoherent(site, actions);
  }

  /**
   * Across a change of VCP it can: the display is cleared before the staleness test, so
   * a sweep of an older volume then takes the place of a newer one.
   */
  lemma OlderAcrossVcpChange()
    ensures var newer := Updated(SweepGridded(1, 0.5, VolumeId(20000, 200), 35, []), 0);
            var older := Updated(SweepGridded(1, 0.5, VolumeId(20000, 100), 212, []), 0);
            var s, s' := After("KDOX", [newer]), After("KDOX", [newer, older]);
            1 in s.sweeps && 1 in s'.sweeps && !NotNewer(s.sweeps[1].volume, s'.sweeps[1].volume)
  {
    var newer := Updated(SweepGridded(1, 0.5, VolumeId(20000, 200), 35, []), 0);
    var older := Updated(SweepGridded(1, 0.5, VolumeId(20000, 100), 212, []), 0);
    assert [newer, older][..1] == [newer] && [newer][..0] == [];
    assert After("KDOX", []) == InitialState("KDOX");
    assert After("KDOX", [newer]) == Act(InitialState("KDOX"), newer);
  }
}
