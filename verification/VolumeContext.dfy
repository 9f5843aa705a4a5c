/**
 * What a volume is announced with (crates/radar-workstation/src/assembly/context.rs), told
 * from its own radials and its start chunk; and when the watchdog gives a volume up.
 */
module VolumeContext {
  import opened Wrappers
  import opened Bytes
  import opened Radar
  import opened Assembly
  import opened AssemblyRuns

  // ---------------------------------------------------------------- what the radials of a volume say

  /** The radials of these sweeps, in order. */
  function RadialsOf(sweeps: seq<Sweep>): seq<Radial> {
    if sweeps == [] then [] else RadialsOf(sweeps[..|sweeps| - 1]) + sweeps[|sweeps| - 1].radials
  }

  /** The site parameters of the last radial that carries any. */
  function SiteOf(rs: seq<Radial>): Option<SiteParameters> {
    if rs == [] then None
    else if rs[|rs| - 1].siteParameters.Some? then rs[|rs| - 1].siteParameters
    else SiteOf(rs[..|rs| - 1])
  }

  /** The coverage pattern: that of the start chunk, else that of the radials, else 0. */
  function PatternOf(announced: Option<nat>, rs: seq<Radial>): nat {
    if announced.Some? then announced.value else if SiteOf(rs).Some? then SiteOf(rs).value.vcpNumber else 0
  }

  /**
   * The volume says where and when it is from as its radials do: the station and time of
   * the first of them, the place of the last that names one.
   */
  predicate Describes(scan: VolumeScan, announced: Option<nat>) {
    var rs := RadialsOf(scan.sweeps);
    && scan.siteId == (if rs == [] then [0, 0, 0, 0] else rs[0].siteId)
    && scan.julianDate == (if rs == [] then 0 else rs[0].julianDate)
    && scan.scanTimeMs == (if rs == [] then 0 else rs[0].scanTimeMs)
    && scan.vcpNumber == PatternOf(announced, rs)
    && match SiteOf(rs)
       case None => scan.latitude == 0.0 && scan.longitude == 0.0 && scan.siteAmslM == 0
       case Some(p) => scan.latitude == p.latitude && scan.longitude == p.longitude && scan.siteAmslM == p.siteAmslM
  }

  // ---------------------------------------------------------------- what the assembler keeps

  function VolumeRadials(a: Asm): seq<Radial> {
    RadialsOf(a.closed) + OpenRadials(a)
  }

  predicate FromFirst(c: Context, r: Radial) {
    c.siteId == r.siteId && c.scanTimeMs == r.scanTimeMs && c.julianDate == r.julianDate
  }

  predicate FromSite(c: Context, site: Option<SiteParameters>) {
    match site
    case None => c.rvolVcpNumber == None && c.latitude == 0.0 && c.longitude == 0.0 && c.siteAmslM == 0
    case Some(p) =>
      c.rvolVcpNumber == Some(p.vcpNumber) && c.latitude == p.latitude && c.longitude == p.longitude
      && c.siteAmslM == p.siteAmslM
  }

  predicate Gathered(a: Asm) {
    if a.state.Accumulating? then
      var rs := VolumeRadials(a);
      rs != [] && FromFirst(a.context, rs[0]) && FromSite(a.context, SiteOf(rs))
    else
      && a.context == FRESH_CONTEXT.(vcp := a.context.vcp) && a.closed == [] && a.current == None
      && (a.state.Idle? ==> a.context.vcp == None)
  }

  lemma RadialsSnoc(sweeps: seq<Sweep>, s: Sweep)
    ensures RadialsOf(sweeps + [s]) == RadialsOf(sweeps) + s.radials
  {
    assert (sweeps + [s])[..|sweeps|] == sweeps;
  }

  lemma SiteSnoc(rs: seq<Radial>, r: Radial)
    ensures SiteOf(rs + [r]) == if r.siteParameters.Some? then r.siteParameters else SiteOf(rs)
  {
    assert (rs + [r])[..|rs|] == rs;
  }

  /** Closing the open sweep moves no radial. */
  lemma CloseKeepsRadials(a: Asm, b: Builder, complete: bool)
    requires a.current == None
    ensures var r := CloseSweep(a, b, complete);
            && VolumeRadials(r.0) == RadialsOf(a.closed) + b.radials
            && r.0.context == a.context && r.0.state == a.state && r.0.current == None
  {
    RadialsSnoc(a.closed, b.Close(complete));
    assert RadialsOf(a.closed + [b.Close(complete)]) + [] == RadialsOf(a.closed + [b.Close(complete)]);
  }

  /** Every sweep announced here is announced under this identity and pattern. */
  predicate Under(es: seq<Event>, id: VolumeId, vcp: nat) {
    forall i :: 0 <= i < |es| ==> es[i].SweepClosed? && es[i].volume == id && es[i].vcpNumber == vcp
  }

  lemma IngestKeepsRadials(a: Asm, r: Radial)
    ensures var n := IngestRadial(a, r);
            && VolumeRadials(n.0) == VolumeRadials(a) + [r]
            && n.0.context == a.context && n.0.state == a.state
            && Under(n.1, a.context.Id(), a.context.VcpNumber())
  {
    hide RadialsOf;
    var (a1, es) := PlaceRadial(a, r);
    assert RadialsOf(a.closed) + [] == RadialsOf(a.closed);
    match a.current {
      case None =>
      case Some(b) =>
        if b.elevationNumber == r.elevationNumber {
          Assoc(RadialsOf(a.closed), b.radials, [r]);
        } else {
          CloseKeepsRadials(a.(current := None), b, false);
          assert VolumeRadials(a1) == RadialsOf(a1.closed) + [r];
          assert RadialsOf(a1.closed) + [] == RadialsOf(a1.closed);
        }
    }
    assert VolumeRadials(a1) == VolumeRadials(a) + [r];
    if EndsElevation(r.radialStatus) {
      CloseKeepsRadials(a1.(current := None), a1.current.value, true);
    }
  }

  lemma AcceptGathers(a: Asm, r: Radial)
    requires Gathered(a) && !a.state.Idle?
    ensures var n := AcceptRadial(a, r);
            && Gathered(n.0) && n.0.state.Accumulating? && n.0.context.vcp == a.context.vcp
            && VolumeRadials(n.0) == VolumeRadials(a) + [r]
            && Under(n.1, IdOf((VolumeRadials(a) + [r])[0]), PatternOf(a.context.vcp, VolumeRadials(a) + [r]))
  {
    var isFirst := a.state.AwaitingData?;
    var a0 := a.(state := if isFirst then Accumulating else a.state, context := a.context.ApplyRadial(r, isFirst));
    IngestKeepsRadials(a0, r);
    SiteSnoc(VolumeRadials(a), r);
    assert VolumeRadials(a0) == VolumeRadials(a);
    hide RadialsOf, IngestRadial;
    if isFirst {
      assert VolumeRadials(a) == [];
    }
  }

  lemma {:induction false} FeedGathers(a: Asm, rs: seq<Radial>, late: map<nat, nat>)
    requires Gathered(a) && !a.state.Idle?
    ensures var fed := FeedAll(a, rs, late);
            && Gathered(fed.asm) && !fed.asm.state.Idle? && fed.asm.context.vcp == a.context.vcp
            && forall e :: e in fed.events ==> e.SweepClosed?
    decreases |rs|
  {
    hide Gathered, AcceptRadial;
    if rs != [] {
      if Late(a, rs[0]) {
        FeedGathers(a, rs[1..], Tally(late, rs[0].elevationNumber));
      } else {
        AcceptGathers(a, rs[0]);
        var (a1, es) := AcceptRadial(a, rs[0]);
        FeedGathers(a1, rs[1..], late);
      }
    }
  }

  lemma EndDescribes(a: Asm, status: VolumeStatus)
    requires Gathered(a)
    ensures var n := EndVolume(a, status);
            && Gathered(n.0) && n.0.state.Idle?
            && n.1 != [] && n.1[|n.1| - 1].VolumeClosed? && Describes(n.1[|n.1| - 1].scan, a.context.vcp)
            && n.1[|n.1| - 1].scan.status == status
            && RadialsOf(n.1[|n.1| - 1].scan.sweeps) == VolumeRadials(a)
            && (forall i :: 0 <= i < |n.1| - 1 ==> n.1[i].SweepClosed?)
  {
    hide RadialsOf, SiteOf;
    if a.current.Some? {
      CloseKeepsRadials(a.(current := None), a.current.value, false);
    }
    var a1 := CloseOpen(a).0;
    assert RadialsOf(a1.closed) == VolumeRadials(a) by {
      assert RadialsOf(a1.closed) + [] == RadialsOf(a1.closed);
    }
    if !a.state.Accumulating? {
      NoSweeps();
    }
  }

  lemma NoSweeps()
    ensures RadialsOf([]) == [] && SiteOf([]) == None
  {
  }

  // ---------------------------------------------------------------- over whole runs

  /** The coverage pattern that the start chunk of the volume in progress announced, if it did. */
  function Announced(inputs: seq<Input>, watchdog: nat): Option<nat>
    decreases |inputs|, 2
  {
    if inputs == [] then None
    else
      var front := inputs[..|inputs| - 1];
      match inputs[|inputs| - 1]
      case StartChunk(vcp, _) => vcp
      case Chunk(kind, _, _) => if kind.Middle? then Announced(front, watchdog) else None
      case Tick(now) => if GivenUpAt(front, now, watchdog) then None else Announced(front, watchdog)
  }

  /** A volume has been begun, by a start chunk or by a chunk without one, and not ended since. */
  predicate InProgress(inputs: seq<Input>, watchdog: nat)
    decreases |inputs|, 0
  {
    inputs != [] &&
      var front := inputs[..|inputs| - 1];
      match inputs[|inputs| - 1]
      case StartChunk(_, _) => true
      case Chunk(kind, _, _) => !kind.End?
      case Tick(now) => InProgress(front, watchdog) && !GivenUpAt(front, now, watchdog)
  }

  /** When the last chunk came. */
  function LastChunkAt(inputs: seq<Input>): nat {
    if inputs == [] then 0
    else
      match inputs[|inputs| - 1]
      case StartChunk(_, now) => now
      case Chunk(_, _, now) => now
      case Tick(_) => LastChunkAt(inputs[..|inputs| - 1])
  }

  /** A volume is in progress and no chunk has come for as long as the watchdog waits. */
  predicate GivenUpAt(inputs: seq<Input>, now: nat, watchdog: nat)
    decreases |inputs|, 1
  {
    InProgress(inputs, watchdog) && (LastChunkAt(inputs) + watchdog <= now || watchdog == 0)
  }

  /** The last of the events closes a volume with this status, and it describes its own radials. */
  predicate EndsWith(es: seq<Event>, status: VolumeStatus, announced: Option<nat>) {
    && es != [] && es[|es| - 1].VolumeClosed? && es[|es| - 1].scan.status == status
    && Describes(es[|es| - 1].scan, announced)
  }

  predicate NoVolume(es: seq<Event>) {
    forall e :: e in es ==> !e.VolumeClosed?
  }

  lemma BeginDescribes(a: Asm, now: nat)
    requires Gathered(a)
    ensures var n := BeginNewVolume(a.(lastActivity := Some(now)));
            && Gathered(n.0) && n.0.state.AwaitingData? && n.0.context.vcp == None && n.0.lastActivity == Some(now)
            && if a.state.Accumulating? then EndsWith(n.1, Superseded, a.context.vcp) else n.1 == []
  {
    hide RadialsOf, SiteOf, Describes;
    EndDescribes(a.(lastActivity := Some(now)), Superseded);
    hide CloseOpen, FinishVolume;
  }

  lemma ChunkDescribes(a: Asm, kind: ChunkKind, rs: seq<Radial>, now: nat)
    requires Gathered(a) && !kind.Start?
    ensures var n := OnChunk(a, kind, rs, now);
            && Gathered(n.0) && n.0.lastActivity == Some(now)
            && if kind.End? then n.0.state.Idle? && EndsWith(n.1, Complete, a.context.vcp)
               else !n.0.state.Idle? && n.0.context.vcp == a.context.vcp && NoVolume(n.1)
  {
    hide RadialsOf, SiteOf, Describes, FeedAll;
    var a0 := a.(lastActivity := Some(now));
    var a1 := if a.state.Idle? then a0.(state := AwaitingData) else a0;
    FeedGathers(a1, rs, map[]);
    var fed := FeedAll(a1, rs, map[]);
    ActivityKept(a1, rs, map[]);
    EndDescribes(fed.asm, Complete);
    EndActivity(fed.asm, Complete);
    hide EndVolume, Gathered;
  }

  lemma {:induction false} ActivityKept(a: Asm, rs: seq<Radial>, late: map<nat, nat>)
    ensures FeedAll(a, rs, late).asm.lastActivity == a.lastActivity
    decreases |rs|
  {
    if rs != [] {
      if Late(a, rs[0]) {
        ActivityKept(a, rs[1..], Tally(late, rs[0].elevationNumber));
      } else {
        ActivityKept(AcceptRadial(a, rs[0]).0, rs[1..], late);
      }
    }
  }

  lemma EndActivity(a: Asm, status: VolumeStatus)
    ensures EndVolume(a, status).0.lastActivity == a.lastActivity
  {
  }

  /** What one input announces, told from the inputs before it. */
  predicate Announces(inputs: seq<Input>, i: Input, watchdog: nat, a: Asm, es: seq<Event>) {
    var announced := Announced(inputs, watchdog);
    match i
    case StartChunk(_, _) => if VolumeRadials(a) == [] then es == [] else EndsWith(es, Superseded, announced)
    case Chunk(kind, _, _) =>
      if kind.Start? then if VolumeRadials(a) == [] then es == [] else EndsWith(es, Superseded, announced)
      else if kind.End? then EndsWith(es, Complete, announced)
      else NoVolume(es)
    case Tick(now) => if GivenUpAt(inputs, now, watchdog) then EndsWith(es, TimedOut, announced) else es == []
  }

  /** The assembler's state, as far as the inputs alone tell. */
  predicate Follows(inputs: seq<Input>, watchdog: nat, a: Asm) {
    && Gathered(a) && (a.state.Idle? <==> !InProgress(inputs, watchdog))
    && a.context.vcp == Announced(inputs, watchdog)
    && (InProgress(inputs, watchdog) ==> a.lastActivity == Some(LastChunkAt(inputs)))
  }

  lemma NoRadialsYet(a: Asm)
    requires Gathered(a)
    ensures VolumeRadials(a) == [] <==> !a.state.Accumulating?
  {
    NoSweeps();
  }

  lemma InputsSnoc(inputs: seq<Input>, i: Input)
    ensures var all := inputs + [i]; all[..|all| - 1] == inputs && all[|all| - 1] == i
  {
  }

  lemma OneInput(inputs: seq<Input>, i: Input, watchdog: nat, a: Asm)
    requires Follows(inputs, watchdog, a)
    ensures var n := Step(a, i, watchdog);
            Follows(inputs + [i], watchdog, n.0) && Announces(inputs, i, watchdog, a, n.1)
  {
    InputsSnoc(inputs, i);
    NoRadialsYet(a);
    match i {
      case StartChunk(vcp, now) =>
        BeginDescribes(a, now);
      case Chunk(kind, rs, now) =>
        if kind.Start? {
          BeginDescribes(a, now);
        } else {
          ChunkDescribes(a, kind, rs, now);
        }
      case Tick(now) =>
        EndDescribes(a, TimedOut);
    }
  }

  lemma {:induction false} RunFollows(inputs: seq<Input>, watchdog: nat)
    ensures Follows(inputs, watchdog, RunAll(inputs, watchdog).asm)
  {
    if inputs != [] {
      var front, i := inputs[..|inputs| - 1], inputs[|inputs| - 1];
      RunFollows(front, watchdog);
      OneInput(front, i, watchdog, RunAll(front, watchdog).asm);
      assert inputs == front + [i];
    }
  }

  /**
   * After any run, what the next input announces. A start chunk supersedes a volume that
   * has radials; an end chunk completes the volume; a tick gives it up exactly when no
   * chunk has come for as long as the watchdog waits; nothing else closes a volume. And
   * each volume closed carries the station and time of its first radial, the place of the
   * last radial that names one, and the coverage pattern of its own start chunk, or else of
   * its radials.
   */
  lemma VolumesDescribed(inputs: seq<Input>, i: Input, watchdog: nat)
    ensures var a := RunAll(inputs, watchdog).asm;
            Announces(inputs, i, watchdog, a, Step(a, i, watchdog).1)
  {
    RunFollows(inputs, watchdog);
    OneInput(inputs, i, watchdog, RunAll(inputs, watchdog).asm);
  }

  /**
   * A radial that is taken closes sweeps under the identity of the volume's first radial
   * and the pattern known by then, its own site parameters included.
   */
  lemma SweepsDescribed(inputs: seq<Input>, r: Radial, watchdog: nat)
    requires InProgress(inputs, watchdog)
    ensures var a := RunAll(inputs, watchdog).asm;
            var rs := VolumeRadials(a) + [r];
            Under(AcceptRadial(a, r).1, IdOf(rs[0]), PatternOf(Announced(inputs, watchdog), rs))
  {
    RunFollows(inputs, watchdog);
    AcceptGathers(RunAll(inputs, watchdog).asm, r);
  }

  /** A start chunk is reported missing exactly when another chunk comes with no volume in progress. */
  lemma MissingIff(inputs: seq<Input>, i: Input, watchdog: nat)
    ensures MissingStartChunk in Step(RunAll(inputs, watchdog).asm, i, watchdog).1 <==>
              i.Chunk? && !i.kind.Start? && !InProgress(inputs, watchdog)
  {
    RunFollows(inputs, watchdog);
    var a := RunAll(inputs, watchdog).asm;
    hide RunAll, Gathered, InProgress, Describes, RadialsOf;
    match i {
      case StartChunk(_, now) => BeginDescribes(a, now);
      case Chunk(kind, rs, now) =>
        if kind.Start? {
          BeginDescribes(a, now);
        } else {
          MissingInChunk(a, kind, rs, now);
        }
      case Tick(_) => EndDescribes(a, TimedOut);
    }
  }

  lemma MissingInChunk(a: Asm, kind: ChunkKind, rs: seq<Radial>, now: nat)
    requires Gathered(a) && !kind.Start?
    ensures MissingStartChunk in OnChunk(a, kind, rs, now).1 <==> a.state.Idle?
  {
    var a0 := a.(lastActivity := Some(now));
    var a1 := if a.state.Idle? then a0.(state := AwaitingData) else a0;
    FeedGathers(a1, rs, map[]);
    var fed := FeedAll(a1, rs, map[]);
    EndDescribes(fed.asm, Complete);
    hide FeedAll, EndVolume, Gathered, Describes;
  }
}
