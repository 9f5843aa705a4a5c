/** What the compute stage sends on: exactly one update for each event that calls for one, in order. */
module ComputeSends {
  import opened Wrappers
  import opened Picking
  import opened Bytes
  import opened Radar
  import opened Grid
  import opened Assembly
  import opened AssemblyRuns
  import opened Compute

  // ---------------------------------------------------------------- updates and events of one kind

  datatype Sort = Sweeps | DerivedSets | Volumes | Notices

  function SortOf(u: Update): Sort {
    match u
    case SweepGridded(_, _, _, _, _) => Sweeps
    case DerivedComputed(_, _, _) => DerivedSets
    case ClosedVolume(_) => Volumes
    case Info(_) => Notices
  }

  /** The updates of one sort, in order. */
  function Only(us: seq<Update>, sort: Sort): seq<Update> {
    if us == [] then []
    else Only(us[..|us| - 1], sort) + if SortOf(us[|us| - 1]) == sort then [us[|us| - 1]] else []
  }

  /** What can be derived from a volume's own tilts. */
  function Derived(scan: VolumeScan, stages: Stages): seq<SweepGrid> {
    stages.derive(Newest(TiltsOf(scan.sweeps, stages)))
  }

  /**
   * What an event calls for, by sort: a closed sweep is sent on gridded, under its own
   * elevation, volume and coverage pattern; a closed volume is summarised; what is derived
   * of a complete one, if anything, is sent under it; other events are passed on.
   */
  function Due(e: Event, stages: Stages, sort: Sort): seq<Update> {
    match e
    case SweepClosed(sweep, volume, vcp) =>
      if sort.Sweeps?
      then [SweepGridded(sweep.elevationNumber, sweep.elevationDeg, volume, vcp, stages.grid(sweep))] else []
    case VolumeClosed(scan) =>
      var id := VolumeId(scan.julianDate, scan.scanTimeMs);
      if sort.Volumes?
      then [ClosedVolume(Summary(id, scan.vcpNumber, scan.status, scan.latitude, scan.longitude, scan.siteAmslM))]
      else if sort.DerivedSets? && scan.status.Complete? && Derived(scan, stages) != []
      then [DerivedComputed(id, scan.vcpNumber, Derived(scan, stages))]
      else []
    case LateRadialsDiscarded(_) => if sort.Notices? then [Info(e)] else []
    case MissingStartChunk => if sort.Notices? then [Info(e)] else []
  }

  function AllDue(log: seq<Event>, stages: Stages, sort: Sort): seq<Update> {
    if log == [] then [] else AllDue(log[..|log| - 1], stages, sort) + Due(log[|log| - 1], stages, sort)
  }

  // ---------------------------------------------------------------- what is sent

  lemma {:induction false} OnlyAppend(a: seq<Update>, b: seq<Update>, sort: Sort)
    ensures Only(a + b, sort) == Only(a, sort) + Only(b, sort)
    decreases |b|
  {
    hide SortOf;
    if b == [] {
      assert a + b == a;
    } else {
      var n := |b| - 1;
      assert (a + b)[..|a + b| - 1] == a + b[..n];
      OnlyAppend(a, b[..n], sort);
    }
  }

  lemma OnlyNone(sort: Sort)
    ensures Only([], sort) == []
  {
  }

  lemma OnlyOne(u: Update, sort: Sort)
    ensures Only([u], sort) == if SortOf(u) == sort then [u] else []
  {
    hide SortOf;
    OnlyNone(sort);
    assert [u][..0] == [];
  }

  lemma HandledIsDue(tilts: seq<SweepGrid>, e: Event, stages: Stages, sort: Sort)
    requires e.VolumeClosed? ==> tilts == Newest(TiltsOf(e.scan.sweeps, stages))
    ensures Only(Handle(tilts, e, stages).updates, sort) == Due(e, stages, sort)
  {
    hide Only, Newest, TiltsOf;
    var us := Handle(tilts, e, stages).updates;
    match e {
      case SweepClosed(_, _, _) => OnlyOne(us[0], sort);
      case VolumeClosed(scan) =>
        var summary := ClosedVolume(SummaryOf(scan));
        OnlyOne(summary, sort);
        if |us| == 2 {
          OnlyOne(us[0], sort);
          OnlyAppend([us[0]], [summary], sort);
          assert us == [us[0]] + [summary];
        } else {
          assert us == [summary];
        }
      case LateRadialsDiscarded(_) => OnlyOne(us[0], sort);
      case MissingStartChunk => OnlyOne(us[0], sort);
    }
  }

  lemma OneMoreEvent(log: seq<Event>, stages: Stages)
    requires LogOk(log) && log != []
    ensures var before, ev := log[..|log| - 1], log[|log| - 1];
            var h := HandleAll(before, stages);
            && LogOk(before)
            && HandleAll(log, stages).updates == h.updates + Handle(h.tilts, ev, stages).updates
            && (ev.VolumeClosed? ==> h.tilts == Newest(TiltsOf(ev.scan.sweeps, stages)))
  {
    var before, ev := log[..|log| - 1], log[|log| - 1];
    TiltsFollowLog(before, stages);
    assert ev.VolumeClosed? ==> ClosesVolume(before, ev.scan);
  }

  lemma Step(log: seq<Event>, stages: Stages, sort: Sort)
    requires LogOk(log) && log != []
    ensures var n := |log| - 1;
            LogOk(log[..n])
            && Only(HandleAll(log, stages).updates, sort)
               == Only(HandleAll(log[..n], stages).updates, sort) + Due(log[n], stages, sort)
  {
    var n := |log| - 1;
    var h, e := HandleAll(log[..n], stages), log[n];
    hide *;
    OneMoreEvent(log, stages);
    HandledIsDue(h.tilts, e, stages, sort);
    OnlyAppend(h.updates, Handle(h.tilts, e, stages).updates, sort);
  }

  /** Over every log, the updates of each sort are exactly those the events call for, one after the other. */
  lemma {:induction false} AllIsSent(log: seq<Event>, stages: Stages, sort: Sort)
    requires LogOk(log)
    ensures Only(HandleAll(log, stages).updates, sort) == AllDue(log, stages, sort)
  {
    if log == [] {
      OnlyNone(sort);
    } else {
      Step(log, stages, sort);
      hide HandleAll, Only, LogOk, Due;
      AllIsSent(log[..|log| - 1], stages, sort);
    }
  }

  // ---------------------------------------------------------------- what is held

  /** All grids made of these sweeps, in order. */
  function AllGrids(sweeps: seq<Sweep>, stages: Stages): seq<SweepGrid> {
    if sweeps == [] then [] else AllGrids(sweeps[..|sweeps| - 1], stages) + stages.grid(sweeps[|sweeps| - 1])
  }

  predicate IsTilt(g: SweepGrid) {
    g.product == Reflectivity
  }

  /** The last forty reflectivity grids, or all if there are no more than that. */
  ghost predicate LastTilts(grids: seq<SweepGrid>, tilts: seq<SweepGrid>) {
    |tilts| <= 40 && exists at, from :: Picks(grids, tilts, at, from, IsTilt) && (from == 0 || |tilts| == 40)
  }

  lemma {:induction false} AllTiltsAt(grids: seq<SweepGrid>) returns (at: seq<nat>)
    ensures Picks(grids, Tilts(grids), at, 0, IsTilt)
  {
    hide Picks;
    PicksNothing(IsTilt);
    at := [];
    if grids != [] {
      var n := |grids| - 1;
      at := AllTiltsAt(grids[..n]);
      PicksSnoc(grids[..n], Tilts(grids[..n]), at, 0, IsTilt, grids[n]);
      assert grids[..n] + [grids[n]] == grids;
      at := if IsTilt(grids[n]) then at + [n] else at;
    }
  }

  lemma TiltsAppend(a: seq<SweepGrid>, b: seq<SweepGrid>)
    ensures Tilts(a + b) == Tilts(a) + Tilts(b)
    decreases |b|
  {
    if b == [] {
      assert a + b == a;
    } else {
      var n := |b| - 1;
      assert (a + b)[..|a + b| - 1] == a + b[..n];
      TiltsAppend(a, b[..n]);
    }
  }

  lemma {:induction false} TiltsOfAll(sweeps: seq<Sweep>, stages: Stages)
    ensures TiltsOf(sweeps, stages) == Tilts(AllGrids(sweeps, stages))
  {
    if sweeps != [] {
      var n := |sweeps| - 1;
      TiltsOfAll(sweeps[..n], stages);
      TiltsAppend(AllGrids(sweeps[..n], stages), stages.grid(sweeps[n]));
    }
  }

  lemma NewestAreLast(grids: seq<SweepGrid>)
    ensures LastTilts(grids, Newest(Tilts(grids)))
  {
    var at := AllTiltsAt(grids);
    var tilts := Tilts(grids);
    hide Tilts;
    if |tilts| > 40 {
      PicksRest(grids, tilts, at, 0, IsTilt, |tilts| - 40);
    }
  }

  /**
   * Over every log: what is held are the last forty reflectivity grids of the volume in
   * progress, and what each complete volume derives from are those of its own sweeps.
   */
  lemma HeldAreLast(log: seq<Event>, stages: Stages, sweeps: seq<Sweep>)
    requires LogOk(log)
    ensures LastTilts(AllGrids(Pending(log), stages), HandleAll(log, stages).tilts)
    ensures LastTilts(AllGrids(sweeps, stages), Newest(TiltsOf(sweeps, stages)))
  {
    TiltsFollowLog(log, stages);
    TiltsOfAll(Pending(log), stages);
    NewestAreLast(AllGrids(Pending(log), stages));
    TiltsOfAll(sweeps, stages);
    NewestAreLast(AllGrids(sweeps, stages));
  }
}
