/**
 * The compute stage (crates/radar-workstation/src/compute/mod.rs): grids each closed
 * sweep, keeps the reflectivity tilts of the volume in progress, and derives the volume
 * products when the volume completes.
 */
module Compute {
  import opened Wrappers
  import opened Bytes
  import opened Radar
  import opened Grid
  import opened Assembly
  import opened AssemblyRuns

  datatype Summary = Summary(
    volume: VolumeId, vcpNumber: nat, status: VolumeStatus, latitude: real, longitude: real, siteAmslM: int)

  function SummaryOf(scan: VolumeScan): Summary {
    Summary(IdOfScan(scan), scan.vcpNumber, scan.status, scan.latitude, scan.longitude, scan.siteAmslM)
  }

  datatype Update =
    | SweepGridded(elevationNumber: nat, elevationDeg: real, volume: VolumeId, vcpNumber: nat, grids: seq<SweepGrid>)
    | DerivedComputed(volume: VolumeId, vcpNumber: nat, grids: seq<SweepGrid>)
    | ClosedVolume(summary: Summary)
    | Info(event: Event)

  /** The two computations run on blocking threads, whatever they are. */
  datatype Stages = Stages(grid: Sweep -> seq<SweepGrid>, derive: seq<SweepGrid> -> seq<SweepGrid>)

  const RETAINED_CAP: nat := 40

  function Newest(tilts: seq<SweepGrid>): (r: seq<SweepGrid>)
    ensures |r| <= RETAINED_CAP
  {
    if |tilts| <= RETAINED_CAP then tilts else tilts[|tilts| - RETAINED_CAP..]
  }

  /** The reflectivity grids among `grids`, in order. */
  function Tilts(grids: seq<SweepGrid>): seq<SweepGrid> {
    if grids == [] then []
    else if grids[|grids| - 1].product.Reflectivity? then Tilts(grids[..|grids| - 1]) + [grids[|grids| - 1]]
    else Tilts(grids[..|grids| - 1])
  }

  function TiltsOf(sweeps: seq<Sweep>, stages: Stages): seq<SweepGrid> {
    if sweeps == [] then []
    else TiltsOf(sweeps[..|sweeps| - 1], stages) + Tilts(stages.grid(sweeps[|sweeps| - 1]))
  }

  // ---------------------------------------------------------------- the retained tilts

  class RetainedTilts {
    var tilts: seq<SweepGrid>

    constructor ()
      ensures tilts == []
    {
      tilts := [];
    }

    /** Keeps a reflectivity grid, dropping the oldest one past the bound. */
    method Offer(grid: SweepGrid) returns (dropped: Option<nat>)
      requires |tilts| <= RETAINED_CAP
      modifies this
      ensures tilts == Newest(old(tilts) + Tilts([grid]))
      ensures dropped == if grid.product.Reflectivity? && |old(tilts)| == RETAINED_CAP
                         then Some(old(tilts)[0].elevationNumber) else None
    {
      assert [grid][..0] == [];
      if !grid.product.Reflectivity? {
        assert tilts + [] == tilts;
        return None;
      }
      tilts := tilts + [grid];
      if |tilts| > RETAINED_CAP {
        var gone := tilts[0];
        tilts := tilts[1..];
        return Some(gone.elevationNumber);
      }
      return None;
    }

    method Take() returns (all: seq<SweepGrid>)
      modifies this
      ensures all == old(tilts) && tilts == []
    {
      all := tilts;
      tilts := [];
    }

    method Clear()
      modifies this
      ensures tilts == []
    {
      tilts := [];
    }
  }

  // ---------------------------------------------------------------- one event

  /** The tilts kept, the updates sent, and the tilt lists handed to `derive`. */
  datatype Handled = Handled(tilts: seq<SweepGrid>, updates: seq<Update>, derivedFrom: seq<seq<SweepGrid>>)

  function Handle(tilts: seq<SweepGrid>, e: Event, stages: Stages): Handled {
    match e
    case SweepClosed(sweep, volume, vcp) =>
      var grids := stages.grid(sweep);
      Handled(Newest(tilts + Tilts(grids)),
              [SweepGridded(sweep.elevationNumber, sweep.elevationDeg, volume, vcp, grids)], [])
    case VolumeClosed(scan) =>
      var summary := SummaryOf(scan);
      if scan.status.Complete? then
        var derived := stages.derive(tilts);
        Handled([], (if derived == [] then [] else [DerivedComputed(summary.volume, summary.vcpNumber, derived)])
                    + [ClosedVolume(summary)], [tilts])
      else Handled([], [ClosedVolume(summary)], [])
    case LateRadialsDiscarded(_) => Handled(tilts, [Info(e)], [])
    case MissingStartChunk => Handled(tilts, [Info(e)], [])
  }

  function HandleAll(log: seq<Event>, stages: Stages): Handled {
    if log == [] then Handled([], [], [])
    else
      var before := HandleAll(log[..|log| - 1], stages);
      var h := Handle(before.tilts, log[|log| - 1], stages);
      Handled(h.tilts, before.updates + h.updates, before.derivedFrom + h.derivedFrom)
  }

  class ComputeStage {
    const stages: Stages
    const retained: RetainedTilts

    constructor (stages: Stages)
      ensures this.stages == stages && fresh(retained) && retained.tilts == []
    {
      this.stages := stages;
      this.retained := new RetainedTilts();
    }

    method HandleEvent(e: Event) returns (updates: seq<Update>, ghost derivedFrom: seq<seq<SweepGrid>>)
      requires |retained.tilts| <= RETAINED_CAP
      modifies retained
      ensures Handled(retained.tilts, updates, derivedFrom) == Handle(old(retained.tilts), e, stages)
      ensures |retained.tilts| <= RETAINED_CAP
    {
      updates, derivedFrom := [], [];
      match e {
        case SweepClosed(sweep, volume, vcp) =>
          var grids := stages.grid(sweep);
          ghost var kept := retained.tilts;
          assert kept + Tilts(grids[..0]) == kept;
          for i := 0 to |grids|
            invariant retained.tilts == Newest(kept + Tilts(grids[..i]))
          {
            var _ := retained.Offer(grids[i]);
            NewestAgain(kept + Tilts(grids[..i]), Tilts([grids[i]]));
            assert grids[..i + 1][..i] == grids[..i] && [grids[i]][..0] == [];
            assert kept + Tilts(grids[..i]) + Tilts([grids[i]]) == kept + Tilts(grids[..i + 1]);
          }
          assert grids[..|grids|] == grids;
          updates := [SweepGridded(sweep.elevationNumber, sweep.elevationDeg, volume, vcp, grids)];
        case VolumeClosed(scan) =>
          var summary := SummaryOf(scan);
          if scan.status.Complete? {
            var tilts := retained.Take();
            derivedFrom := [tilts];
            var derived := stages.derive(tilts);
            if derived != [] {
              updates := [DerivedComputed(summary.volume, summary.vcpNumber, derived)];
            }
          }
          retained.Clear();
          updates := updates + [ClosedVolume(summary)];
        case LateRadialsDiscarded(_) => updates := [Info(e)];
        case MissingStartChunk => updates := [Info(e)];
      }
    }
  }

  // ---------------------------------------------------------------- over whole runs

  lemma DropTwice<T>(s: seq<T>, i: nat, j: nat)
    requires i + j <= |s|
    ensures s[i..][j..] == s[i + j..]
  {
  }

  /** Keeping the newest forty as they come is keeping the newest forty of all. */
  lemma NewestAgain(a: seq<SweepGrid>, b: seq<SweepGrid>)
    ensures Newest(Newest(a) + b) == Newest(a + b)
  {
    if |a| > RETAINED_CAP {
      var k := |a| - RETAINED_CAP;
      assert a[k..] + b == (a + b)[k..];
      DropTwice(a + b, k, |b|);
    }
  }

  /** For every volume completed, its own sweeps' tilts in closure order, the newest forty. */
  function OwnTilts(log: seq<Event>, stages: Stages): seq<seq<SweepGrid>> {
    if log == [] then []
    else
      var before, e := OwnTilts(log[..|log| - 1], stages), log[|log| - 1];
      if e.VolumeClosed? && e.scan.status.Complete? then before + [Newest(TiltsOf(e.scan.sweeps, stages))] else before
  }

  lemma {:induction false} TiltsFollowLog(log: seq<Event>, stages: Stages)
    requires LogOk(log)
    ensures HandleAll(log, stages).tilts == Newest(TiltsOf(Pending(log), stages))
    ensures HandleAll(log, stages).derivedFrom == OwnTilts(log, stages)
  {
    if log != [] {
      var before, e := log[..|log| - 1], log[|log| - 1];
      TiltsFollowLog(before, stages);
      match e {
        case SweepClosed(s, _, _) =>
          var kept := TiltsOf(Pending(before), stages);
          NewestAgain(kept, Tilts(stages.grid(s)));
          assert (Pending(before) + [s])[..|Pending(before)|] == Pending(before);
        case VolumeClosed(scan) => assert ClosesVolume(before, scan);
        case LateRadialsDiscarded(_) =>
        case MissingStartChunk =>
      }
    }
  }

  /**
   * Assembler and compute stage together, over any run: what is derived at each
   * completed volume is derived from exactly that volume's own reflectivity tilts, and
   * what is held in between are those of the volume in progress.
   */
  lemma DerivedFromOwnVolume(inputs: seq<Input>, watchdog: nat, stages: Stages)
    ensures var log := RunAll(inputs, watchdog).log;
            var h := HandleAll(log, stages);
            && h.derivedFrom == OwnTilts(log, stages)
            && h.tilts == Newest(TiltsOf(RunAll(inputs, watchdog).asm.closed, stages))
  {
    EveryRun(inputs, watchdog, 0);
    TiltsFollowLog(RunAll(inputs, watchdog).log, stages);
  }
}
